# Verification of the settlement, query and data-path cores

A Dafny 4.11 model of the parts of this repository whose mistakes are expensive and hard to see:
exact money arithmetic, the GraphQL query budget, snapshot pagination, the sliding-window limiter,
the retrying transaction, the `read` to `read_at` migration, the contract drift check, the monthly
repayment history and the adaptive scheduler. `dafny verify dfyconfig.toml` checks all of it.
Automatic induction is switched off on every lemma, so each induction is written out.

| file | models |
|---|---|
| `Rounding.dfy` | `roundDiv` in four modes, with BigInt's truncating division spelled out |
| `DecimalText.dfy` | `toStroops` and `fromStroops` on strings, digit by digit |
| `ProRata.dfy` | `splitProRata` with its arrays and nested loops |
| `QueryBudget.dfy` | `measureOperation`: cost, depth and aliases over selections and named fragments |
| `QueryOccurrences.dfy` | the field occurrences a query reaches, and the three totals counted over them |
| `QueryExecution.dfy` | GraphQL execution under the list resolvers, against that cost |
| `FragmentCycles.dfy` | what validation means by acyclic fragments, and the cost results without a rank for them |
| `EventQuery.dfy` | `buildEventFilters` and the keyset clauses as SQL tokens, with an independent reader of the text |
| `KeysetWalk.dfy` | a client's walk through the pages while other writers append rows |
| `RateLimiter.dfy` | the limiter's Lua script on a sorted set under an expiring key |
| `Transactions.dfy` | `withTransaction` and `withRetry` against an arbitrary pattern of failures |
| `NotificationsMigration.dfy` | the trigger, the backfill under concurrent writers, the gate, the drop and its `down` |
| `ContractDrift.dfy` | `compareSchemas` and `compareComponents` |
| `EventAmount.dfy`, `RemittanceHistory.dfy` | the event amount parser; the monthly fold and the streak |
| `AdaptiveScheduling.dfy` | mode, failure counter, back-off and what survives a restart |

## What the code promises and does not keep

Each of these is a result with its exact condition, not a gap in the proofs.

- Floor and Ceil in `toStroops` round the magnitude and apply the sign afterwards, so a negative
  amount with a nonzero digit past the seventh place goes the wrong way, and only such an amount does.
- Some selection under a list field can return more than it was charged for exactly when the field's
  `limit` is the literal 0 or a variable: `loans(limit: $n)` with two fields per row is charged 160 and
  can return 202 values.
- A keyset walk loses rows exactly when one of its pages ends between two rows of which the second does
  not lie past the cursor of the first. The column holds microseconds and the cursor, a JavaScript date,
  milliseconds, so distinct `(created_at, seq)` do not prevent it. Rows are safe whatever the page size
  exactly when every two of them lie in different milliseconds, or the one with the lower `seq` lies at
  the very start of theirs. The column is not unique either, and the migration that adds `seq` numbers
  every existing row 1.
- Admissions counted one by one stay within the limiter's maximum, for every maximum and window,
  exactly when no two answered requests before the last share a millisecond: their timestamps are one
  member of the sorted set. The remaining count does not include the request being answered; it is what
  is left exactly when the window was full or already held that timestamp, or has no length.
- The contract gate alone does not make the drop of `read` reversible: a row comes back exactly when
  its two columns agreed, which also takes the invariant the trigger keeps. The contract `down` does
  not restore the trigger, and from then on only a write that sets both columns alike keeps them in
  agreement; so after a first round trip a row marked unread can pass the gate and come back read.
- The drift check can pass two steps and refuse their sum. Without breaking changes in either step, it
  does so for exactly the versions in the middle that hold a `$ref`; with empty reports, for exactly the
  baselines with a droppable property. That is one whose name every object inherits (`constructor`,
  `toString`, ...) and whose schema has no `$ref`, nothing required and only such properties: dropping it
  goes unreported. A lost property path is reported exactly when one of its lost names is not inherited.
- The scheduler's documentation gives the back-off as base times multiplier to the number of
  failures; the code, which the model follows, uses one less. The two agree exactly when there are
  failures and both values reach the maximum, or the multiplier is 1. A poll that changes the mode
  clears the failure counter in memory but not in the row, so a restart brings the counter back,
  exactly when the last call before it other than a poll was a failure, or there was none and the
  counter started above 0.

## Assumptions

They stand as preconditions, or in the shape of the model, where they are used.

- Money: none; BigInt is unbounded, and so is the model.
- GraphQL: the document passed standard validation, all types are object types as in
  `backend/src/graphql/schema.ts`, `__` fields are not counted, and no `@skip` or `@include` is applied,
  which could only remove fields. A negative SQL `LIMIT` yields no rows.
- Pagination: rows are append-only, later rows get a `seq` above the pinned snapshot, `seq` is
  positive, and `limit` is at least 1. Timestamps are whole microseconds; a cursor is the last row's
  timestamp cut to milliseconds and its `seq`, and is decoded to what was encoded. Each query parameter
  is the value its column reads.
- Limiter: `now` never runs backwards between calls, and the server's clock gains at most one second
  on it. A call that finds Redis down is let through and recorded nowhere.
- Transactions: a COMMIT that throws has not committed, a ROLLBACK that throws has lost its
  connection, and the callback reaches the database only through its client. The second of these
  carries weight: the code logs a failed ROLLBACK and releases the client to the pool without an error
  (`backend/src/db/connection.ts:166-171` and `:186-188`), so on a connection that was still alive the
  next caller would find the transaction open.
- Migration: the updates of one statement are applied row by row, each re-checked against the WHERE
  clause when its turn comes; `created_at` is not null. A column that does not exist takes no value.
- Repayment history: the month of a close time is an arbitrary function, monotone where order matters.
- Scheduler: milliseconds are real numbers, and a persisted write happens at once or not at all.

## Model

| member | source | states |
|---|---|---|
| Rounding.TruncDivRem | backend/src/money/decimal.ts:65-66 | BigInt quotient and remainder recompose the dividend, with the dividend's sign and below the divisor, for every sign combination |
| Rounding.RoundsUnique | backend/src/money/decimal.ts:75-97 | each mode names at most one integer for a real quotient, HalfEven's ties included |
| Rounding.RoundDivCorrect | backend/src/money/decimal.ts:52-106 | the result is an integer exactly when it is what the mode means of the exact quotient; the one failure is a zero denominator |
| Rounding.RoundDivMonotone | backend/src/money/decimal.ts:52-106 | a larger exact quotient is never rounded lower, whatever the signs of the denominators |
| Rounding.RoundDivMonotoneInNumerator | backend/src/money/decimal.ts:52-106 | monotone in the numerator over a positive denominator, antitone over a negative one |
| Rounding.RoundDivScaleInvariant | backend/src/money/decimal.ts:57-66 | multiplying both arguments by any nonzero factor changes nothing |
| Rounding.RoundDivMirrors | backend/src/money/decimal.ts:72-105 | the half modes are odd; Floor and Ceil are dual under negation |
| Rounding.RoundDivExact | backend/src/money/decimal.ts:68-70 | an exact quotient comes back unchanged in every mode |
| Rounding.FloorIsDivision | backend/src/money/decimal.ts:77-79 | Floor over a positive denominator is integer division toward minus infinity |
| DecimalText.Grammar | backend/src/money/decimal.ts:108-127 | the accepted strings are exactly the spellings of a sign, digits and an optional fraction, and splitting inverts spelling |
| DecimalText.MagnitudeRounds | backend/src/money/decimal.ts:129-138 | in both branches the magnitude is the absolute value in stroops, rounded by the mode |
| DecimalText.ToStroopsRounds | backend/src/money/decimal.ts:118-141 | the parser rounds the magnitude and applies the sign afterwards |
| DecimalText.AcceptedIff | backend/src/money/decimal.ts:118-127 | a string is accepted, in every mode, if and only if it is the spelling of a decimal between two runs of JavaScript white space, given as a set of characters |
| DecimalText.SurroundingSpaceIsIgnored | backend/src/money/decimal.ts:118-120 | white space around a decimal never changes its result |
| DecimalText.SpacedDecimalRounds | backend/src/money/decimal.ts:118-141 | a decimal between white space is read as its own value in stroops, rounded by the mode, mirrored under a minus sign |
| DecimalText.HalfModesRoundTheSignedValue | backend/src/money/decimal.ts:118-141 | in HalfEven and HalfUp every accepted string is parsed to its exact signed value, correctly rounded |
| DecimalText.DirectedModesRoundTheSignedValueIff | backend/src/money/decimal.ts:118-141 | Floor and Ceil do so if and only if the input is not a negative number with a nonzero digit past the seventh place |
| DecimalText.FloorOfNegativeDust | backend/src/money/decimal.ts:137-140 | the witness -0.00000001: Floor gives 0 where the value rounds down to -1 |
| DecimalText.RedundantZeros | backend/src/money/decimal.ts:126-138 | leading zeros, and trailing fractional zeros across the seven-digit boundary, never matter |
| DecimalText.ParseAfterPrint | backend/src/money/decimal.ts:149-155 | parsing the printed text gives back every stroop amount, in every mode |
| DecimalText.PrintAfterParse | backend/src/money/decimal.ts:118-155 | printing a parsed string with at most seven fractional digits gives its canonical spelling |
| ProRata.LargestUnused | backend/src/money/decimal.ts:231-240 | the inner loop finds the largest unused remainder, the lowest index among equals |
| ProRata.HandOut | backend/src/money/decimal.ts:228-244 | the greedy loop tops up exactly the entries of the lowest ranks by remainder descending, index ascending |
| ProRata.FloorShares | backend/src/money/decimal.ts:211-221 | the first loop computes each exact share's floor, its remainder and their total |
| ProRata.SplitProRata | backend/src/money/decimal.ts:193-247 | the whole function, errors included, equals the closed form by ranks |
| ProRata.SplitRefuses | backend/src/money/decimal.ts:193-209 | each of the four errors for exactly its own inputs: a negative total; no weights under a positive total; a negative weight; a positive total over weights that are all zero; every other input is split |
| ProRata.InitialSegment | backend/src/money/decimal.ts:230-244 | what repeated arg-max has picked is an initial segment of the sort |
| ProRata.LeftoverBounds | backend/src/money/decimal.ts:223-226 | the leftover is below the number of nonzero remainders, so the drift check cannot fire |
| ProRata.ToppedSum | backend/src/money/decimal.ts:228-244 | topping up distributes exactly the leftover |
| ProRata.SplitExact | backend/src/money/decimal.ts:193-247 | no input reaches the drift error, and the parts always sum to the total |
| ProRata.NoTopUpForExactShares | backend/src/money/decimal.ts:228-244 | an entry whose share is exact is never topped up |
| ProRata.PartIsFloorOrCeiling | backend/src/money/decimal.ts:211-246 | every part is the floor or the ceiling of its exact share; a zero weight gets zero |
| ProRata.SplitFair | backend/src/money/decimal.ts:193-247 | a larger weight never gets a smaller part; equal weights differ by at most one stroop, in favour of the lower index |
| ProRata.SplitScaleInvariant | backend/src/money/decimal.ts:193-247 | multiplying all weights by one positive factor changes nothing, errors included |
| ProRata.SplitOptimal | backend/src/money/decimal.ts:193-247 | no integer vector of the same total has a smaller sum of squared deviations from the exact shares |
| QueryBudget.Meter.Walk | backend/src/graphql/queryBudget.ts:71-113 | cost returned, aliases added and depth raised equal the recursive measure, which QueryOccurrences.MeasureCountsOccurrences ties to what a query reaches; it terminates on every document, cyclic fragments included |
| QueryBudget.Meter.Visit | backend/src/graphql/queryBudget.ts:78-111 | the same for one selection |
| QueryBudget.MeasureOperation | backend/src/graphql/queryBudget.ts:59-117 | the fragment table and the three totals of an operation |
| QueryBudget.SeenIrrelevant | backend/src/graphql/queryBudget.ts:104-109 | on acyclic documents the set of fragments already entered never matters |
| QueryBudget.FragmentsAreTransparent | backend/src/graphql/queryBudget.ts:103-113 | on acyclic documents with matching type conditions, cost, depth and aliases equal those of the query with every spread replaced by its body |
| QueryBudget.ExpansionIsSpreadFree | backend/src/graphql/queryBudget.ts:103-109 | that expansion has no spread left |
| QueryOccurrences.MeasureCountsOccurrences | backend/src/graphql/queryBudget.ts:71-117 | on every document, aliases are the field occurrences reached that carry one, depth is the longest nesting of fields, and cost is the sum over occurrences of the weight times the factors of the fields around it |
| QueryOccurrences.WeightIs | backend/src/graphql/queryBudget.ts:28-35 | the weight is 10 for the query's loans, scores and remittances, 25 for poolBalance and totalOutstanding, and 1 otherwise |
| QueryOccurrences.FactorIs | backend/src/graphql/queryBudget.ts:89-96 | a field multiplies what it contains by the integer of its first `limit`, at least 1, or by 50, when it is one of the three lists, and by 1 otherwise |
| QueryOccurrences.RuleIsExact | backend/src/graphql/queryBudget.ts:119-139 | an operation is let through if and only if it is no query, or what it reaches nests no deeper, carries no more aliases and costs no more than the limits |
| QueryExecution.MultiplierCoversRowsIff | backend/src/graphql/queryBudget.ts:89-96 | the multiplier covers every page the resolver can return, for all variables, if and only if the limit is absent, null or a literal other than 0 |
| QueryExecution.CollectCost | backend/src/graphql/queryBudget.ts:71-113 | the fields that execution collects cost at most what the walk charged |
| QueryExecution.MergingIsCheaper | backend/src/graphql/queryBudget.ts:79-100 | fields merged under one response key, their arguments in any order, cost at most what they were charged apart |
| QueryExecution.CostBoundsResponse | backend/src/graphql/queryBudget.ts:59-117 | any response to a validated query with priced limits holds at most as many field values as its cost |
| QueryExecution.AcceptedQueriesStayWithinBudget | backend/src/graphql/queryBudget.ts:119-139 | so an accepted query never returns more than maxCost field values |
| FragmentCycles.RankExistsIff | backend/src/graphql/queryBudget.ts:104-109 | the rank that stands for acyclic fragments exists if and only if no fragment reaches itself through spreads |
| FragmentCycles.CostBoundsEveryResponse | backend/src/graphql/queryBudget.ts:59-117 | the bound on responses for every document in which no fragment reaches itself |
| FragmentCycles.AcceptedResponsesStayWithinBudget | backend/src/graphql/queryBudget.ts:119-139 | and the bound by maxCost |
| QueryExecution.WithinCostIffPriced | backend/src/graphql/queryBudget.ts:89-98 | for each list field and argument list, every response to every validated sub-selection stays within its cost if and only if the limit is absent, null or a literal other than 0 |
| QueryExecution.ZeroLimitIsUnderpriced | backend/src/graphql/resolvers.ts:27-43 | for each list field, with limit 0 a query priced at 13 returns 22 values |
| QueryExecution.VariableLimitIsUnderpriced | backend/src/graphql/resolvers.ts:27-43 | for each list field, with a variable limit of 100 a query priced at 160 returns 202 values |
| EventQuery.AndJoins | backend/src/controllers/indexerController.ts:35-37 | reading a clause joined by AND conjoins what its two parts say |
| EventQuery.AppendSays | backend/src/controllers/indexerController.ts:35-37 | an appended condition, with its new parameters, adds exactly its meaning |
| EventQuery.KeysetCondition | backend/src/controllers/indexerController.ts:258-265 | the parenthesised keyset text reads as strictly past the cursor in (created_at, seq) descending |
| EventQuery.AppendComparison | backend/src/controllers/indexerController.ts:46-49 | one pushed parameter and its comparison conjoin that comparison |
| EventQuery.AppendBetween | backend/src/controllers/indexerController.ts:51-59 | two pushed parameters conjoin a closed range |
| EventQuery.BuildEventFilters | backend/src/controllers/indexerController.ts:30-62 | the clause says the base and exactly the requested filters, a status of "all" asking for none; placeholders numbered 1 to n in order |
| EventQuery.SnapshotStatement | backend/src/controllers/indexerController.ts:251-256 | filters and snapshot bound, as the count query sends them |
| EventQuery.AppendKeyset | backend/src/controllers/indexerController.ts:258-265 | the cursor's three parameters conjoin the keyset predicate, or nothing is added |
| EventQuery.BuildQueries | backend/src/controllers/indexerController.ts:233-300 | the page query denotes filters, snapshot and cursor, the count query the same without the cursor, every placeholder is in range and used once, and LIMIT is limit + 1 |
| KeysetWalk.GetEvents | backend/src/controllers/indexerController.ts:243-306 | the handler's response through those two queries; a first request pins the largest sequence number of the table, or 0 for an empty one, and a later one keeps the client's |
| KeysetWalk.MaxSeqIsLargest | backend/src/controllers/indexerController.ts:243-249 | no row of the pinned table has a larger sequence number, and one has this one unless there is no row |
| KeysetWalk.LaterRowsInvisible | backend/src/controllers/indexerController.ts:251-256 | rows appended above the snapshot change no page and no total |
| KeysetWalk.ApartIff | backend/src/controllers/indexerController.ts:258-291 | one of two rows lies past the cursor of the other, cut to milliseconds, if and only if they lie in different milliseconds or the one with the lower seq lies at the start of theirs |
| KeysetWalk.LaterPage | backend/src/controllers/indexerController.ts:258-276 | past the cursor of row n - 1 lie exactly the rows from n on, when row n does |
| KeysetWalk.PastCursorPage | backend/src/controllers/indexerController.ts:258-276 | a later page is the snapshot filtered by the cursor, ties or not |
| KeysetWalk.UntiedWalkCollectsPrefix | backend/src/controllers/indexerController.ts:243-306 | after any number of turns, with inserts before any statement and any timestamps, the client holds the first rows of the pinned snapshot, as many as it asked for, when no page ended before a row that is not past its cursor |
| KeysetWalk.WalkCollectsPrefix | backend/src/controllers/indexerController.ts:243-306 | that holds for pages of any sizes when no two matching rows are tied, that is, each pair is apart |
| KeysetWalk.FinishedWalkIsComplete | backend/src/controllers/indexerController.ts:243-306 | with no two matching rows tied, a finished walk returned each row of the pinned table that the request's base condition and filters ask for once, strictly descending, as many as total_at_snapshot said; rows appended later only have to be numbered above the pinned ones |
| KeysetWalk.WalkTerminates | backend/src/controllers/indexerController.ts:284-291 | every walk, over tied rows too, ends within as many turns as there are matching rows, or one |
| KeysetWalk.OneRowPagesAreStrict | backend/src/controllers/indexerController.ts:258-291 | with one row per page the rows come strictly descending, each past the cursors of all before it, whatever the table holds |
| KeysetWalk.CompleteIffUntied | backend/src/controllers/indexerController.ts:258-291 | a walk that asks for enough rows, in pages of any sizes and with inserts interleaved, returns all of the snapshot if and only if no page ends before a row that is not past its cursor |
| KeysetWalk.CompleteIffApart | backend/src/controllers/indexerController.ts:258-291 | read row by row, a quiet table comes back whole if and only if every two matching rows are apart |
| KeysetWalk.SameMillisecondIsLost | backend/src/controllers/indexerController.ts:287-291 | two rows inside one millisecond with different keys: a client that reads them one by one misses one |
| KeysetWalk.BackfilledTieIsLost | backend/migrations/1800000000000_keyset-pagination-seq-columns.js:21-30 | two existing rows of one millisecond, both numbered 1 by the migration: a client that reads them one by one misses one |
| RateLimiter.DistributedRateLimiter.CheckLimit | backend/src/middleware/distributedRateLimiter.ts:48-116 | one call applies the script to its own key and leaves every other key alone; with Redis down it admits and changes nothing |
| RateLimiter.CountIsWindow | backend/src/middleware/distributedRateLimiter.ts:67-71 | the count is the number of logged admissions in the window |
| RateLimiter.KeyRepresentsLog | backend/src/middleware/distributedRateLimiter.ts:67-81 | after every run the key holds each admission that can still matter |
| RateLimiter.DecidesLikeTheLog | backend/src/middleware/distributedRateLimiter.ts:60-91 | pruning and EXPIRE never change a decision, compared with a log that keeps everything |
| RateLimiter.DecisionIsExact | backend/src/middleware/distributedRateLimiter.ts:60-105 | the whole answer read off the log: the limit, admission exactly while the window holds fewer than max, and as resetAfter the later of now and the moment the oldest admission in the window ages out, the new one counted |
| RateLimiter.TimeToLiveCovers | backend/src/middleware/distributedRateLimiter.ts:80 | the key's time to live is a whole number of seconds, at least one and less than two seconds past the window |
| RateLimiter.WindowsAreBounded | backend/src/middleware/distributedRateLimiter.ts:70-81 | no half-open window of length windowMs, wherever it ends, holds more than max admission timestamps |
| RateLimiter.AtMostMaxAdmissions | backend/src/middleware/distributedRateLimiter.ts:70-81 | with strictly increasing clocks, nor more than max admissions |
| RateLimiter.AdmissionsAreBoundedIff | backend/src/middleware/distributedRateLimiter.ts:70-81 | counted one by one, admissions stay within max in every window, for all limits and window lengths, if and only if the clocks of all answered calls but the last strictly increase |
| RateLimiter.AdmissionsAreDistinct | backend/src/middleware/distributedRateLimiter.ts:76-78 | with strictly increasing clocks no two admissions share a member |
| RateLimiter.RefusedOnlyWhenFull | backend/src/middleware/distributedRateLimiter.ts:70-73 | a request is refused if and only if exactly max admissions lie in its window |
| RateLimiter.RetryAfterReset | backend/src/middleware/distributedRateLimiter.ts:83-105 | with nobody admitted meanwhile, a refused caller is admitted if and only if it comes back at or after resetAfter |
| RateLimiter.RemainingPrecedesAdmission | backend/src/middleware/distributedRateLimiter.ts:73-81 | the remaining count, of admitted and refused requests, is what is left afterwards if and only if the window was full, already held the timestamp, or has no length; otherwise it is one more |
| RateLimiter.SameMillisecondMerges | backend/src/middleware/distributedRateLimiter.ts:76-78 | the witness: three calls of one millisecond are admitted where two are allowed |
| Transactions.RunAttempt | backend/src/db/connection.ts:161-171 | the body of the try: BEGIN, callback and COMMIT, or the rollback of whichever threw, with the committed state and the statements sent |
| Transactions.WithTransaction | backend/src/db/connection.ts:152-190 | for every pattern of failures a normal return has committed exactly one run of the callback, a throw has changed nothing and carries the last error, and the events are those of the specified run; when the first attempt fails and not with one of the nine codes, or no retry is allowed, its error is thrown after at most one acquisition, with no sleep and nothing committed |
| Transactions.LastAttemptEnds | backend/src/db/connection.ts:159-184 | the endless loop ends at the first attempt that is not retried, and at no other; at most maxRetries retries |
| Transactions.FollowedIff | backend/src/db/connection.ts:159-184 | of the attempts made, number i is followed by another if and only if i is below maxRetries and BEGIN, the callback or COMMIT failed in it with one of the nine codes |
| Transactions.TransientIffMayPass | backend/src/db/connection.ts:106-116 | the nine codes are exactly those of the set |
| Transactions.FirstIsFinal | backend/src/db/connection.ts:173-184 | a first attempt that is not retried is the whole run: one acquisition, unless that is what failed, and no sleep |
| Transactions.RollsBackIff | backend/src/db/connection.ts:165-171 | an attempt that failed after its client was acquired, and whose ROLLBACK works, rolls back once; no other attempt rolls back |
| Transactions.RunKeepsProtocol | backend/src/db/connection.ts:159-190 | one client at a time, COMMIT only after BEGIN and one callback, acquired and released counts equal, at most k + 1 callbacks, one COMMIT exactly on success, and k retries sleep baseDelayMs times 2^k - 1 |
| Transactions.WithRetry | backend/src/db/connection.ts:119-137 | every call but the last failed transiently, the last outcome is returned, at most retries + 1 calls, and the waits add up to the geometric sum |
| NotificationsMigration.NotificationsTable.SyncRead | backend/migrations/1806000000000_notifications-read-at-expand.js:24-43 | the trigger's assignments to NEW, three-valued `read` included |
| NotificationsMigration.NotificationsTable.Run | backend/migrations/1806000000000_notifications-read-at-expand.js:24-43 | one statement, through the trigger while it is live, with its error and unchanged table on failure |
| NotificationsMigration.InsertStores | backend/migrations/1806000000000_notifications-read-at-expand.js:24-32 | the exact row an insert stores: read when the writer says so or dates it, dated as given or else now when read; it fails exactly when `read` is NULL and no date is given |
| NotificationsMigration.UpdateStores | backend/migrations/1806000000000_notifications-read-at-expand.js:33-40 | the exact row an update stores over any earlier one, undated ones included; it fails exactly when `read` is set to NULL and the date is left alone |
| NotificationsMigration.NotificationsTable.Expand | backend/migrations/1806000000000_notifications-read-at-expand.js:19-51 | undisturbed, the expand phase dates exactly the read rows, by their creation; it fails and changes nothing if the new column exists or the old one is gone |
| NotificationsMigration.NotificationsTable.ContractUp | backend/migrations-contract/1806100000000_notifications-drop-read.js:16-33 | the drop happens if and only if the gate holds, with the error of the part that fails |
| NotificationsMigration.NotificationsTable.ContractDown | backend/migrations-contract/1806100000000_notifications-drop-read.js:36-41 | every row's `read` is derived from `read_at`; it fails and changes nothing if `read` exists or `read_at` does not |
| NotificationsMigration.WritesAgree | backend/migrations/1806000000000_notifications-read-at-expand.js:26-39 | any accepted write that changes either column leaves the two in agreement, whatever it tried to set |
| NotificationsMigration.WritersAreTranslated | backend/migrations/1806000000000_notifications-read-at-expand.js:33-38 | an old writer's flag sets or clears the date and keeps an existing one; a new writer's date sets the flag |
| NotificationsMigration.DatedRowsAreRead | backend/migrations/1806000000000_notifications-read-at-expand.js:23-51 | in every reachable state a dated row is read |
| NotificationsMigration.VisitDates | backend/migrations/1806000000000_notifications-read-at-expand.js:49-51 | the backfill dates a read, undated row by its creation and leaves every other row alone |
| NotificationsMigration.ExpandDates | backend/migrations/1806000000000_notifications-read-at-expand.js:19-51 | an undisturbed expand phase keeps every creation time and flag and dates exactly the read rows by their creation |
| NotificationsMigration.BackfillAgrees | backend/migrations/1806000000000_notifications-read-at-expand.js:49-51 | with writers interleaved anywhere in the backfill, the columns are equivalent after it and for ever after |
| NotificationsMigration.GateIffAgree | backend/migrations-contract/1806100000000_notifications-drop-read.js:17-30 | on what the trigger lets through, the gate passes if and only if the columns are equivalent |
| NotificationsMigration.DerivedIffAgreed | backend/migrations-contract/1806100000000_notifications-drop-read.js:31-38 | drop and `down` restore a row nobody wrote if and only if its columns agreed |
| NotificationsMigration.ExpandContractRoundTrip | backend/migrations-contract/1806100000000_notifications-drop-read.js:16-38 | over the whole route the gate passes, all rows end in agreement, and every row untouched since the drop is restored |
| NotificationsMigration.GateAloneIsNotEnough | backend/migrations-contract/1806100000000_notifications-drop-read.js:16-38 | a reachable table the gate lets through whose row comes back changed: expand, contract, `down`, an old writer's mark, contract again |
| NotificationsMigration.DownLeavesNoTrigger | backend/migrations-contract/1806100000000_notifications-drop-read.js:31-41 | after `down`, a write leaves a row's columns in agreement if and only if it sets both of them alike |
| ContractDrift.CompareSchemas | scripts/check-contract-drift.ts:296-367 | the loops and the recursion report exactly the drift, in order |
| ContractDrift.CompareComponents | scripts/check-contract-drift.ts:263-294 | removed schemas first, then the drift of each schema still there |
| ContractDrift.DriftIsExact | scripts/check-contract-drift.ts:296-367 | a change is in the report if and only if it holds between the two schemas that one property path reaches on both sides |
| ContractDrift.ComponentsDriftIsExact | scripts/check-contract-drift.ts:263-294 | a change is in the component report if and only if some baseline schema is gone, at its own location, or still there and different along a shared path, at that path below its location |
| ContractDrift.LostPathIsCovered | scripts/check-contract-drift.ts:340-353 | for a property path of the baseline with no `$ref` on the way, a prefix carries a breaking removal if and only if one of the names from where the current schema's own path ends is not an inherited one |
| ContractDrift.InheritedNameIsMissed | scripts/check-contract-drift.ts:341 | dropping a property with an inherited name goes unreported |
| ContractDrift.ClearIffAccepts | scripts/check-contract-drift.ts:296-367 | a report is empty, or free of breaking changes, if and only if the current schema still offers what the baseline did |
| ContractDrift.SameSchemaIsSilent | scripts/check-contract-drift.ts:296-367 | a schema compared with itself gives an empty report |
| ContractDrift.ReportsAreTransitive | scripts/check-contract-drift.ts:296-367 | reports without breaking changes compose when the middle version has no `$ref`; empty reports, and reports without changed references, when the baseline has nothing droppable |
| ContractDrift.TransitiveIffRefFree | scripts/check-contract-drift.ts:299-311 | the first compose for all outer versions if and only if the middle one has no `$ref` |
| ContractDrift.AsksNothingIff | scripts/check-contract-drift.ts:313-351 | the schemas for which the empty one is accepted, except for breaking changes alone, are those with no `$ref`, nothing required and only inherited property names of the same kind |
| ContractDrift.TransitiveIffNothingDroppable | scripts/check-contract-drift.ts:340-351 | the others compose for all later versions if and only if the baseline has no droppable property outside a `$ref` |
| ContractDrift.SilentStepsDoNotAdd | scripts/check-contract-drift.ts:341 | the witness: a property called constructor is dropped and comes back with a required field, each step silent and their sum not |
| ContractDrift.RoutesAreKept | scripts/check-contract-drift.ts:263-294 | when the components pass and none has a droppable property, every route through properties and references, cyclic ones included, that the baseline resolves is still resolved and requires at least as much |
| ContractDrift.RoutesAreKeptIff | scripts/check-contract-drift.ts:263-294 | passing reports keep all routes of a baseline if and only if nothing in it is droppable |
| EventAmount.AmountIsExact | backend/src/controllers/simulationController.ts:15-23 | a decimal is accepted if and only if it denotes an integer, and is then read as that integer |
| EventAmount.ParseAfterIndexing | backend/src/controllers/simulationController.ts:15-23 | every amount the indexer writes is read back |
| EventAmount.UnspelledAmounts | backend/src/controllers/simulationController.ts:15-23 | no text and the empty text are 0, a fraction without a whole part is 0 or refused as fractional, and a plus sign may stand in front of digits |
| EventAmount.RadixLiteral | backend/src/controllers/simulationController.ts:15-23 | BigInt's literals after 0x, 0o or 0b are read in radix 16, 8 or 2, and refused on a digit outside the radix |
| RemittanceHistory.GroupByMonth | backend/src/controllers/simulationController.ts:54-80 | the loop over events computes the fold, or the first parse error |
| RemittanceHistory.CountStreak | backend/src/controllers/simulationController.ts:92-101 | the backward loop computes the streak |
| RemittanceHistory.GetRemittanceHistory | backend/src/controllers/simulationController.ts:49-101 | streak over all months, the last six shown, each amount printed from exact stroops |
| RemittanceHistory.ShowIsExact | backend/src/controllers/simulationController.ts:82-89 | a shown month keeps key and status, and its amount's text is parsed back, in every mode, to the month's stroops |
| RemittanceHistory.HistorySummarises | backend/src/controllers/simulationController.ts:54-80 | for events in any order: one entry per month with an event, its amount the exact sum of its repayments, Defaulted if and only if it holds a default, and the totals add up |
| RemittanceHistory.FailsOnFirstBadAmount | backend/src/controllers/simulationController.ts:15-23 | the fold fails if and only if some repayment does not parse, with the first such error |
| RemittanceHistory.MonthsAscend | backend/src/controllers/simulationController.ts:54-80 | for time-ordered events the months strictly increase |
| RemittanceHistory.StreakIsLongest | backend/src/controllers/simulationController.ts:92-101 | the streak is the longest suffix without a default |
| RemittanceHistory.StreakCountsSinceLastDefault | backend/src/controllers/simulationController.ts:92-101 | read off the events, it holds exactly the months after the latest one with a default |
| AdaptiveScheduling.AdaptiveScheduler.CalculateNextPoll | backend/src/services/adaptiveScheduler.ts:146-173 | the mode its lag determines, that mode's interval and batch, the back-off, and the new state |
| AdaptiveScheduling.AdaptiveScheduler.RecordSuccess | backend/src/services/adaptiveScheduler.ts:176-205 | the counter is cleared in memory, and in the row if the write succeeds |
| AdaptiveScheduling.AdaptiveScheduler.RecordFailure | backend/src/services/adaptiveScheduler.ts:210-240 | the counter is raised and its back-off returned |
| AdaptiveScheduling.AdaptiveScheduler.ResetBackoff | backend/src/services/adaptiveScheduler.ts:244-262 | the counter is cleared |
| AdaptiveScheduling.ModeIsMonotone | backend/src/services/adaptiveScheduler.ts:319-327 | a larger lag never selects a slower mode; Behind is ever selected if and only if the thresholds are ordered |
| AdaptiveScheduling.ModeRanges | backend/src/services/adaptiveScheduler.ts:319-327 | each mode for exactly its range of lag, thresholds included in the slower one, and by default 50, 100 as its borders |
| AdaptiveScheduling.ModeIsOfLastPoll | backend/src/services/adaptiveScheduler.ts:152-160 | after any run the mode is the one the last lag determines |
| AdaptiveScheduling.CountsFailures | backend/src/services/adaptiveScheduler.ts:146-262 | after any run the counter is the failures since the last success, reset or mode-changing poll, on top of the initial count if there was none |
| AdaptiveScheduling.BackoffIsOrderly | backend/src/services/adaptiveScheduler.ts:350-358 | zero exactly at no failures, capped, and nondecreasing |
| AdaptiveScheduling.ClampIsInvisibleIff | backend/src/services/adaptiveScheduler.ts:355-357 | the exponent clamp cannot be observed if and only if the multiplier is 1 or ten failures already reach the maximum |
| AdaptiveScheduling.DefaultClampIsInvisible | backend/src/services/adaptiveScheduler.ts:97-99 | it cannot under the default configuration |
| AdaptiveScheduling.DefaultWaits | backend/src/services/adaptiveScheduler.ts:350-358 | by default the waits are 5, 15, 45 and 135 seconds, and 135 from then on |
| AdaptiveScheduling.DocumentedBackoffIff | backend/src/services/adaptiveScheduler.ts:345-358 | the documented formula gives the actual back-off if and only if there are failures and the multiplier is 1 or both values reach the maximum |
| AdaptiveScheduling.FirstWaitIsShorter | backend/src/services/adaptiveScheduler.ts:345-358 | the witness: 5000 ms after the first failure by default, where the documented formula gives 15000 |
| AdaptiveScheduling.RestartResumesIff | backend/src/services/adaptiveScheduler.ts:105-160 | with every write stored, a restart resumes the mode always, and the counter unless a poll has changed the mode since the last other call and that call was a failure, or there was none and the counter started above 0 |
| AdaptiveScheduling.ClearedCounterComesBack | backend/src/services/adaptiveScheduler.ts:154-161 | the witness: one failure and a poll that changes the mode leave 0 in memory and 1 in the row |

## Left out

- `parsePositiveInt` and `loadQueryBudgetLimits`: environment parsing, one branch each.
- Floating-point and display code (`roundToCents`, yields, `Number(fromStroops(x))`, date formatting): rounding of doubles is not modelled; the history keeps the exact decimal text.
- KeysetWalk.GetEvents: the tables that the pinning, page and count statements find are passed as values, and ties in ORDER BY are broken by table order; PostgreSQL may break them in any way.
- EventQuery.BuildQueries: SQL text is a token list, so spelling and quoting are not modelled; a comparison with NULL is not true, and three-valued logic goes no further.
- `encodeCursor`, `decodeCursor` and limit parsing: the cursor is its two fields and any limit of at least 1 is accepted.
- QueryExecution.CostBoundsResponse: resolver errors and nulls are covered as responses with fewer values; subscriptions and mutations, which the rule skips, are not.
- RateLimiter.DistributedRateLimiter.CheckLimit: a Redis failure after the script has run counts as not having run it.
- Transactions.WithTransaction: the retries inside `getClient` show only as its result; WithRetry is proved by itself. Other sessions do not change the database between attempts.
- Pool shutdown, admission control and metrics in `backend/src/db/connection.ts`: no property across calls.
- NotificationsMigration.NotificationsTable.Run: a statement of the application writes one row; statements over many rows are runs of them. Index creation and the expand phase's `down` are not modelled.
- `comparePaths`, `compareParameters`, `compareResponses`, `compareRequestBody`, `compareSecurity`: the same loops as the two comparisons modelled here, with flat membership tests.
- ContractDrift.CompareSchemas: a context is the list of its segments; segments that contain dots, and the wording of descriptions, are not modelled. A property whose value is not an object is not a schema here.
- AdaptiveScheduling.AdaptiveScheduler.CalculateNextPoll: the write of the new mode is taken as done or failed by the next call, though the code does not wait for it.
- Time stamps and messages in the scheduler's row, logging and metrics: written, never read by the logic.
- Express wiring, authentication, lockout, Soroban and frontend code: plumbing around these cores.

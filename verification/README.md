# HeliosDB-Proxy: verified models of its stateful core

HeliosDB-Proxy sits between PostgreSQL clients and a cluster. This project models, in Dafny, the parts of
it whose correctness is a matter of whole runs rather than of single calls: the connection pool, the replay
of journaled transactions after a failover, the failover controller, the INSERT batcher, the health checker,
the gateways' idle pool, automatic promotion, the SCRAM-SHA-256 server, and the parameter substitution for
restored cursors.

Two forms of model occur side by side.

* Code that shares state between tasks is a state machine with one event per lock section or atomic
  operation. `Run` folds any schedule of events; an event that cannot happen leaves the state alone. The
  theorems hold for every schedule and carry no assumption about it beyond what they say.
* The calls themselves are classes and methods with the fields, loops and branches of the code. Each is
  proved to do what the state machine does when nobody interferes (`Alone`, `Ran`, `View`), or to meet a
  specification of its own.

`Sums` holds the conservation argument that the pool, the batcher, the failover counter and the gateway
pool share: weights over sequences and over maps, and how a sum changes when one element does. `Text` holds
the string operations the code takes from its standard library, each with a lemma that says, for every text,
what it finds.

What the outside world decides is an input that the theorems quantify over: answers of backends, probes and
hooks, the moment at which a timeout strikes, whether a socket is alive, and the order in which a map yields
its keys.

Some statements one would expect are false of the code. Each is stated with the exact condition under
which it holds, for all inputs, and with an input on which it fails:

* the gauges are exact after `close_all` (`GaugeExactIff`, `CloseAllUndercounts`);
* a started transaction is applied at most once (`AppliedOnceIff`, `TwoCallsApplyTwice`);
* scanning an interpolated query again gives the substituted tokens (`RescanAfterSubstitution`,
  `TouchingMerges`);
* the history entry of an attempt that has ended is closed (`EndedEntryOpenIff`,
  `FailedPromotionStaysOpen`);
* a started transaction stays active until it is run, cancelled or replaced (`StartsKeptIff`,
  `SecondStartIsSwept`);
* the attempt promoted last decides the primary (`TargetIsPrimaryIff`, `EarlierPromotionWins`);
* a combined INSERT does what the single ones would (`BulkAgreesIff`, and `RefusedRowDiffers`,
  `ReferenceDiffers`, `SnapshotDiffers` and `SecondColumnsLost` for four different reasons);
* the requests of a batch are told of the rows that were stored (`RepliesTellGainIff`,
  `LostAnswerHidesRows`, `DroppedRowIsReported`);
* the health events that are sent alternate (`SentAlternateIff`, `LostRecovery`);
* an LSN is read as the position it names (`LsnExactIff`, `WideUpperHalf`).

Where the code and its comments differ, the model follows the code. The comments on
`coordinate_failover_replay` say that statements are replayed on the new primary and compared; the replayer
it builds has no backend, and `CoordinateReplay` proves what follows from that.

## Model

| member | source | states |
|---|---|---|
| `PoolProtocol.PermitConservation` | src/connection_pool.rs:318-467 | In every schedule, for every registration of a node: free permits, permits held by acquires in progress and permits inside live connections add up to `max_connections`. |
| `PoolProtocol.LiveConnectionsBounded` | src/connection_pool.rs:389-404 | In every schedule the live connections made under one registration never exceed the cap. |
| `PoolProtocol.NeverInTwoPlaces` | src/connection_pool.rs:335-451 | In every schedule every connection id occurs at most once over all idle lists, hands of calls in progress and checked-out connections together. |
| `PoolProtocol.Flow` | src/connection_pool.rs:328-607 | Any event, any state, any weight of connections: the weight changes by exactly the connections the event drops and makes. |
| `PoolProtocol.RunExact` | src/connection_pool.rs:263-285 | Without `close_all`, in the middle of calls too, both gauges equal what the pools and the calls in progress answer for, so the saturating subtraction never saturates. |
| `PoolProtocol.GaugesExact` | src/connection_pool.rs:318-467 | Without `close_all`, with no call in progress, `total_connections` is idle plus checked out and `active_connections` is checked out, removed nodes included. |
| `PoolProtocol.GaugesNeverAbove` | src/connection_pool.rs:574-583 | With `close_all` anywhere, the gauges with no call in progress never show more than that. |
| `PoolProtocol.GaugeLessLost` | src/connection_pool.rs:263-285 | In every schedule, `close_all` included and in the middle of calls too, each gauge is what is due less what was lost: everything due at the latest store of zero, and since then as much, unless less was due. |
| `PoolProtocol.GaugeExactIff` | src/connection_pool.rs:574-583 | With `close_all` anywhere, at a moment with no call in progress, a gauge is exact if and only if at some moment nothing was due and no zero has been stored into it since. |
| `PoolProtocol.CloseAllUndercounts` | src/connection_pool.rs:579-580 | A schedule that ends with a connection checked out and both gauges at zero. |
| `PoolProtocol.PooledAreReady` | src/connection_pool.rs:420-451 | In every schedule what a pool holds is marked idle and belongs to that node, and what a caller holds is marked in use. |
| `PoolProtocol.PooledIsReused` | src/connection_pool.rs:334-350 | In every schedule an acquire for a node with pooled connections takes the first of them instead of opening one, and the pool keeps exactly the others. |
| `PoolProtocol.RegisteredIff` | src/connection_pool.rs:234-325 | In every schedule a node has a pool if and only if it has been added and not removed since. |
| `PoolProtocol.GetMeaning` | src/connection_pool.rs:328-404 | In any state, an acquire for an unknown node ends at once and changes nothing; one for a node without idle connections changes nothing and waits on that node's own semaphore. |
| `PoolProtocol.RemovedIsNotFound` | src/connection_pool.rs:318-341 | In every schedule, from a removal of a node to its next addition, the node has no pool, and an acquire for it ends at once and changes nothing. |
| `PoolProtocol.PermitsAreOfOwnNode` | src/connection_pool.rs:389-416 | In every schedule the semaphore of a pool, the one an acquire waits on and the permit inside a connection, wherever it is, belong to a registration of the same node. |
| `ConnectionPool.FindIdle` | src/connection_pool.rs:343-347 | The search loop finds the first connection marked idle, or the end. |
| `ConnectionPool.Retain` | src/connection_pool.rs:592-600 | The retain loop keeps exactly the connections that have not expired, in order, and separates off those that it drops. |
| `ConnectionPool.ConnectionPool.constructor` | src/connection_pool.rs:212-222 | The protocol's initial state. |
| `ConnectionPool.ConnectionPool.AddNode` | src/connection_pool.rs:234-240 | A new node gets an empty pool and a new semaphore with all permits, and nothing else changes; for a known node nothing changes at all. |
| `ConnectionPool.ConnectionPool.RemoveNode` | src/connection_pool.rs:318-325 | The node's pool, and no other, leaves the map; the gauge falls by the number of its idle connections, and each of their permits comes back; an unknown node changes nothing. Ends where the protocol's `remove_node` ends when it runs alone. |
| `ConnectionPool.ConnectionPool.GetConnection` | src/connection_pool.rs:328-417 | "Not found" exactly for unknown nodes; without an idle connection what `Open` does; otherwise the first idle one, and only that, leaves its pool: handed out in use and counted active if usable, and otherwise uncounted, its permit given back, and a new one opened. Ends where the protocol's acquire ends when it runs alone, for every answer of the world. |
| `ConnectionPool.ConnectionPool.TakeIdle` | src/connection_pool.rs:334-350 | The first idle connection leaves its pool; the others, other pools and the semaphore stay. |
| `ConnectionPool.ConnectionPool.Open` | src/connection_pool.rs:389-416 | Without a permit in time, "timed out" and nothing changes; with a failed connect, "connect failed" and nothing has changed in the end; otherwise a new connection in use with a permit of the given semaphore, counted in both gauges. Ends where the protocol's create-new path does. |
| `ConnectionPool.ConnectionPool.ReturnConnection` | src/connection_pool.rs:420-451 | One less active; to a known node it comes back idle at the end of its pool; otherwise it is uncounted and its permit comes back. Ends where the protocol's return ends when it runs alone. |
| `ConnectionPool.ConnectionPool.CloseConnection` | src/connection_pool.rs:454-467 | One less in both gauges, its permit comes back, the pools stay. Ends where the protocol's close ends when it runs alone. |
| `ConnectionPool.ConnectionPool.EvictIdle` | src/connection_pool.rs:586-607 | Every pool keeps exactly its connections that have not expired, with its semaphore; the gauge falls by the number dropped. Ends where the protocol's sweep does. |
| `ConnectionPool.ConnectionPool.EvictPool` | src/connection_pool.rs:592-603 | The same for one pool, with the number evicted; no other pool changes. |
| `ConnectionPool.ConnectionPool.CloseAll` | src/connection_pool.rs:574-583 | The sweep ends where the protocol's does: all pools empty, both gauges zero, every permit of a dropped connection given back. |
| `ConnectionPool.AtomicGauge.SaturatingSub` | src/connection_pool.rs:105-115 | However often other threads write in between or the weak exchange fails without cause, the loop performs one saturating subtraction on the value they left last. |
| `FailoverReplay.Drive` | src/failover_replay.rs:210-453 | For every journal, configuration and sequence of backend answers: the target holds nothing of the transaction or all of the to-apply list, which is the entries that are neither transaction control nor skipped reads, in the order of the journal; success means all of it, confirmed, and under `verify_results` faithful; failure means nothing, unless COMMIT itself returned an error; the results are exactly the reports on skipped reads in journal order, on each entry in order (sent, rolled back, or never connected) and on an unconfirmed COMMIT; each counter is the tally of its results, and together they count every entry once, plus an unconfirmed COMMIT. |
| `FailoverReplay.Transact` | src/failover_replay.rs:321-427 | The same from BEGIN to COMMIT or ROLLBACK on one connection, with the reports and the tallies of replayed, failed and diverged statements. |
| `FailoverReplay.RunStatements` | src/failover_replay.rs:326-385 | The statement loop succeeds exactly if every statement is faithful; otherwise it stops at the first that is not; nothing is durable yet either way, and the counters are the tallies of the reports. |
| `FailoverReplay.Judge` | src/failover_replay.rs:330-382 | A statement counts as a success exactly when it ran and, under `verify_results`, matched the recorded row count and had no recorded checksum; what is reported on rows and on the checksum; an error is given exactly for failures, and says divergence exactly when the statement did run, and refusal exactly for a statement that the client does not send. |
| `FailoverReplay.ReportsExplained` | src/failover_replay.rs:263-427 | One report for each entry to apply, and one more exactly for an unconfirmed COMMIT, with its reason; each is the verdict on its answer, a rollback, or a connection never made. |
| `FailoverReplay.Classify` | src/failover_replay.rs:240-261 | Some strictly increasing places of the journal are all those of entries that are neither transaction control nor skipped reads, and the to-apply list is the entries there; the same for skipped reads, each reported as a success under its own sequence number; skipped plus to-apply is everything. |
| `FailoverReplay.ToApplyInOrder` | src/failover_replay.rs:240-261 | The first half of that, for the to-apply list as a function of the journal. |
| `FailoverReplay.SkippedInOrder` | src/failover_replay.rs:240-261 | The second half, for the reports on skipped reads. |
| `FailoverReplay.Connect` | src/failover_replay.rs:282-319 | The retry loop connects exactly if some attempt within the allowed number would. |
| `FailoverReplay.FailAll` | src/failover_replay.rs:263-280 | One failed result for each entry from the given one on, in order. |
| `FailoverReplay.FailoverReplay.StartReplay` | src/failover_replay.rs:178-207 | An incompletely captured journal is refused and nothing changes; any other becomes active. |
| `FailoverReplay.FailoverReplay.RunReplay` | src/failover_replay.rs:210-453 | The first lock section: "no active replay" exactly for an unknown transaction and "position not reached" exactly if one is to be waited for and is not reached, with target and active set left alone; otherwise `Drive`'s guarantees hold, and the transaction is still active, with the new results after the earlier ones. |
| `FailoverReplay.FailoverReplay.FinishReplay` | src/failover_replay.rs:455-458 | The later sections: the transaction, and no other, leaves the active set, and the result joins the end of the history, whose newest hundred are kept. |
| `FailoverReplay.FailoverReplay.ExecuteReplay` | src/failover_replay.rs:210-469 | Both together with nobody in between. |
| `ReplayProtocol.AppliedOnceIff` | src/failover_replay.rs:455-457 | In every schedule of starts, cancellations and the lock sections of any number of `execute_replay` calls: each start takes effect at most once if and only if no call that gets to its COMMIT begins between the sections of another call that has committed the same start. |
| `ReplayProtocol.TwoCallsApplyTwice` | src/failover_replay.rs:455-457 | One start and two calls before either removes the transaction: its entries are applied twice. |
| `ReplayProtocol.SomeTransactionCommits` | src/failover_replay.rs:321-427 | A journal and a backend for which that schedule exists, under every configuration. |
| `ReplayProtocol.StartsKeptIff` | src/failover_replay.rs:455-457 | In every schedule: every accepted start is active, or has been run, cancelled or replaced, if and only if no call took a transaction out of the active set that had been started anew since the call ran it and not run since. |
| `ReplayProtocol.SecondStartIsSwept` | src/failover_replay.rs:455-457 | A start accepted between the sections of a call: it is gone without having been run, cancelled or replaced. |
| `FailoverReplay.FailoverReplay.CancelReplay` | src/failover_replay.rs:550-554 | Only the cancelled transaction leaves the active set. |
| `FailoverReplay.CoordinateReplay` | src/failover_controller.rs:720-857 | One result per transaction, in order, successes plus failures is the total, the target is never touched, and a transaction counts as a success exactly when it was fully captured and holds transaction control only; fails exactly when a position has to be waited for and is not reached. |
| `FailoverReplay.NothingToApply` | src/failover_replay.rs:240-261 | With reads not skipped, the to-apply list is empty exactly for journals of transaction control only. |
| `Lsn.LsnRoundTrip` | src/failover_replay.rs:579-587 | Parsing inverts printing for all halves below 2^32, in either case of hex digits. |
| `Lsn.ParseLsnIff` | src/failover_replay.rs:579-587 | For every text and value: it parses as that value exactly if it is two hexadecimal numbers, blanks around them aside, before and after its first slash, the first below 2^64, the second below 2^32, and the value is the first shifted by 32 bits within 64 plus the second. |
| `Lsn.LsnOrder` | src/failover_replay.rs:579-587 | Parsed positions are ordered as their halves are, upper half first. |
| `Lsn.LsnExactIff` | src/failover_replay.rs:583-586 | The parsed value is the position the text names if and only if the upper half fits in 32 bits. |
| `Lsn.WideUpperHalf` | src/failover_replay.rs:583-586 | An upper half of 2^32 with a lower half of 0 is read as 0. |
| `Lsn.LowHalfChecked` | src/failover_replay.rs:583-585 | A text of two 64-bit halves parses if and only if its lower half fits in 32 bits. |
| `CursorRestore.InterpolateCursorParams` | src/cursor_restore.rs:488-591 | Succeeds exactly when the indices are 1 to N and every placeholder names one. Then the output is the query's tokens, in order, where a placeholder whose digits are a number n in base 10 is a closed string literal that reads as the text of the parameter with index n, and every other token is as it was; scanning the output gives these tokens if and only if no placeholder touches a single-quoted region or another placeholder. Otherwise it reports the first position in ascending order whose index is another, or the first bad placeholder: its number if out of range, and where it stands if it is none. |
| `CursorRestore.NumberedPlaceholder` | src/cursor_restore.rs:555-582 | For every number, a dollar sign and its decimal digits are one placeholder that reads as that number. |
| `CursorRestore.Reference` | src/cursor_restore.rs:562-582 | The number is the digits read in base 10, within 1 to the number of parameters; out of range exactly carries that number and that count, and an unreadable one its place. |
| `CursorRestore.Scan` | src/cursor_restore.rs:534-590 | The scanner loop with its index, quote flag and buffer emits what the token-level expansion says, with the same error. |
| `CursorRestore.ExpandMeaning` | src/cursor_restore.rs:534-590 | The expansion succeeds exactly if every placeholder token resolves, and is then the printed token sequence after substitution. |
| `CursorRestore.ExpandError` | src/cursor_restore.rs:562-582 | When it fails, the error is that of the first token that does not resolve, at its position in the text. |
| `CursorRestore.RescanAfterSubstitution` | src/cursor_restore.rs:534-590 | Scanning the output again gives the query's tokens with one string token for each placeholder if and only if no placeholder touches a single-quoted region or another placeholder. |
| `CursorRestore.TokenReadsAsValue` | src/cursor_restore.rs:502-532 | The string token of a placeholder, read with its quotes undoubled, is the parameter's text. |
| `CursorRestore.TouchingMerges` | src/cursor_restore.rs:534-590 | With `$1$1` the two literals are scanned as one token. |
| `CursorRestore.QuoteLiteral` | src/cursor_restore.rs:502-532 | The literal is the string token of the parameter's text: its UTF-8 reading if it has one, its `\x` form otherwise. |
| `CursorRestore.HexFormMeaning` | src/cursor_restore.rs:502-532 | The `\x` form is two hexadecimal digits for each byte, in order, that read as the byte. |
| `CursorRestore.QuoteIdent` | src/cursor_restore.rs:471-483 | The quoted name scans as one double-quoted token that reads back as the name. |
| `CursorRestore.SortByIndex` | src/cursor_restore.rs:489-491 | A permutation of the parameters in ascending order of index. |
| `CursorRestore.DenseInOrder` | src/cursor_restore.rs:489-500 | After sorting, the position check passes exactly when the indices are 1 to N. |
| `CursorRestore.BuildTable` | src/cursor_restore.rs:489-532 | The table holds, for each parameter, the literal of its text at its index, and is refused exactly when the indices are not 1 to N, with the first position in ascending order whose index is another, and that index. |
| `CursorRestore.OneFirstGap` | src/cursor_restore.rs:492-500 | There is only one such position and index. |
| `SqlTokens.RenderLex` | src/cursor_restore.rs:534-590 | Printing the tokens of a text gives the text back. |
| `SqlTokens.RescanIff` | src/cursor_restore.rs:534-590 | A token sequence survives printing and scanning exactly when it is canonical. |
| `SqlTokens.DoubledReadsBack` | src/cursor_restore.rs:502-532 | Doubling quotes is undone by reading. |
| `FailoverProtocol.HistoryIsNewestAttempts` | src/failover_controller.rs:284-393 | Any number of overlapping attempts, any interleaving: the history is the newest `max(1, max_history)` attempts in push order, each entry showing its own attempt's outcome and no other's. |
| `FailoverProtocol.AttemptsComeFromEvents` | src/failover_controller.rs:284-330 | In every schedule each attempt was begun by one event, by place: a manual one has the target of its call and is not refused; an automatic one has the candidate and the lag it was given, and is refused exactly if there was no primary or no candidate; both remember the primary of that moment. |
| `FailoverProtocol.SuccessMeansPromoted` | src/failover_controller.rs:350-363 | An entry is marked a success only if its attempt's promotion succeeded. |
| `FailoverProtocol.PromotionHappened` | src/failover_controller.rs:350-353 | For every attempt that counts as promoted there is a moment in the schedule at which its promotion succeeded. |
| `FailoverProtocol.CountIsPromotions` | src/failover_controller.rs:353-355 | `failover_count` is the number of attempts, manual ones included, that came to the counting step. |
| `FailoverProtocol.PrimaryIsLastWrite` | src/failover_controller.rs:352-353 | In every schedule the primary is what the last write wrote, from outside or by a promoted attempt that sets its own target, and none if there was no write. |
| `FailoverProtocol.PrimaryIff` | src/failover_controller.rs:352-353 | A node is the primary if and only if it has been written and no other node has been written since. |
| `FailoverProtocol.TargetIsPrimaryIff` | src/failover_controller.rs:350-353 | The same for the target of any attempt, such as the one promoted last. |
| `FailoverProtocol.EarlierPromotionWins` | src/failover_controller.rs:350-353 | A schedule of two attempts in which the one promoted first sets the primary last. |
| `FailoverProtocol.CloseInWindow` | src/failover_controller.rs:693-700 | Closing by id changes the attempt's own entry wherever it is in the ring, and nothing if it has been evicted. |
| `FailoverProtocol.EndedEntryOpenIff` | src/failover_controller.rs:350-363 | The entry of an attempt that has ended is still open if and only if, at some event of the schedule, that attempt's promotion failed. |
| `FailoverProtocol.FailureIsInSchedule` | src/failover_controller.rs:350 | An attempt is marked as failed in promotion exactly when the schedule holds the event at which its promotion failed. |
| `FailoverProtocol.FailedPromotionStaysOpen` | src/failover_controller.rs:350 | A schedule with one attempt that has ended and whose entry stays open. |
| `FailoverController.FailoverController.constructor` | src/failover_controller.rs:182-203 | A history cap of zero is raised to one. |
| `FailoverController.FailoverController.PushEntry` | src/failover_controller.rs:321-327 | The push-and-pop loop keeps the newest entries up to the cap, with the new one at the end. |
| `FailoverController.FailoverController.CloseHistoryEntry` | src/failover_controller.rs:693-700 | The first entry with the id, if there is one, is ended as a success or a failure with its nodes unchanged, and no other entry changes. |
| `FailoverController.FailoverController.CompleteFailover` | src/failover_controller.rs:293-363 | From the chosen candidate on: the primary becomes the target and the count rises exactly if any wait and the promotion succeed, and otherwise both stay; a new id's entry is the last of the history and shows how the attempt ended. Ends where the protocol ends when the attempt runs alone. |
| `FailoverController.FailoverController.RunAttempt` | src/failover_controller.rs:321-363 | The same with the displayed state and the whole history. |
| `FailoverController.FailoverController.ManualFailover` | src/failover_controller.rs:647-678 | Succeeds exactly if the target is a candidate and is promoted; then it is the primary and the count has risen by one; otherwise primary and count stay, and without a candidate nothing changes at all; never touches the history. Ends where the protocol's manual attempt ends. |
| `FailoverController.SelectBestCandidate` | src/failover_controller.rs:396-424 | Synchronous if that is preferred and there is one, then the smallest lag, then the smallest priority, over candidates in any order; none exactly when there is none. |
| `FailoverController.OrderIsTotal` | src/failover_controller.rs:407-419 | The comparison handed to `sort_by` is total and transitive. |
| `FailoverController.PollUntilCaughtUp` | src/failover_controller.rs:464-493 | The wait ends well at the first poll that repeats the position of the two before it, fails at the first null or failed poll before that, and times out exactly if neither comes. |
| `Sorting.Sort` | src/failover_controller.rs:407-419 | By a total preorder: sorted, and a permutation. |
| `BatchProtocol.RequestsConserved` | src/batch.rs:273-439 | In every schedule each accepted request is in exactly one of: being added, pending, in a sealed batch, answered. |
| `BatchProtocol.AtMostOneReply` | src/batch.rs:412-430 | In every schedule no request is answered twice. |
| `BatchProtocol.RowsConserved` | src/batch.rs:187-215 | In every schedule the counts of each batch are the sums over its requests; rows received are rows being added, pending, sealed, inserted or failed; rows reported as inserted agree with the statistics up to the answers under way. |
| `BatchProtocol.BatchesAreForOneTable` | src/batch.rs:273-355 | In every schedule a pending batch holds requests for its own table, and a sealed one is not empty. |
| `InsertBatcher.CombineInserts` | src/batch.rs:442-464 | The nested loops print one INSERT with the first request's table and columns and all rows in order of arrival. |
| `InsertBatcher.PrintReadsBack` | src/batch.rs:442-464 | The text of every statement whose names and values are free of commas and parentheses is read back as the statement. |
| `BulkInsert.BulkAgreesIff` | src/batch.rs:362-386 | Any database, any rules (each row stored, dropped or refused in view of the tables at the start of its statement and now, and a check at the end of the statement), any batch on one table with any column lists: the combined INSERT leaves the tables as the single ones in order of arrival would, if it is refused, exactly if each request would have stored nothing; if it is accepted and drops no row, exactly if each request with rows, in its turn, is accepted and stores what its rows store as part of the combined INSERT; if it drops rows, exactly if it stores, in order, what the requests store in their turns. |
| `BulkInsert.SameTurnsSuffice` | src/batch.rs:362-386 | With dropped rows too, it is enough that every turn is the same. |
| `BulkInsert.SameTurnsIfAccepted` | src/batch.rs:442-464 | With one column list and constant values, a turn is the same exactly if the request is accepted in it. |
| `BulkInsert.BulkAgreesByRow` | src/batch.rs:362-386 | With one column list and rows judged by themselves: the two agree if and only if no row is refused, or every request with rows has a refused row. |
| `BulkInsert.RefusedRowDiffers` | src/batch.rs:374-382 | Two requests with one column list, the second refused: one by one the first row is stored, and the combined INSERT stores nothing. |
| `BulkInsert.ReferenceDiffers` | src/batch.rs:374-382 | A row that refers to a row of the next request: the combined INSERT is accepted, and one by one the first request is refused. |
| `BulkInsert.SnapshotDiffers` | src/batch.rs:455-459 | Two rows whose value counts the table's rows: 0 and 0 when combined, 0 and 1 one by one. |
| `BulkInsert.SecondColumnsLost` | src/batch.rs:447-451 | Two requests with different columns: the second row is stored under the columns of the first. |
| `BulkInsert.SwappedColumnsAgree` | src/batch.rs:447-451 | Two requests with different columns on which the two agree, whatever the database holds. |
| `BulkInsert.SealedBatchAgreesIff` | src/batch.rs:343-386 | `BulkAgreesIff` for every batch that is sealed in any schedule. |
| `BulkInsert.RepliesTellGainIff` | src/batch.rs:374-430 | Any database, any rules, and a call that does not get through, is answered, or whose answer is lost: the rows that the requests are told of are as many as the table has gained if and only if, when the answer arrives, an accepted INSERT drops no row and, when it is lost, the INSERT did not run or stores nothing. |
| `BulkInsert.LostAnswerHidesRows` | src/batch.rs:374-382 | A lost answer: one row gained, and failure told. |
| `BulkInsert.DroppedRowIsReported` | src/batch.rs:377-378 | A dropped row: none gained, and one told. |
| `BulkInsert.RepliesMatchRowCount` | src/batch.rs:388-430 | In every schedule, if a sealed batch is inserted, the rows reported to its requests add up to the row count in the statistics. |
| `InsertBatcher.InsertBatcher.Add` | src/batch.rs:273-337 | A ticket exactly if batching is on, not shut down and the table is allowed, "shut down" exactly if batching is on and shut down, and "disabled" otherwise; without a ticket nothing changes. With one, the request joins its table's batch, and the whole batch is sealed with its statement exactly if its rows or bytes have reached their limit or it has waited. As in the protocol. |
| `InsertBatcher.InsertBatcher.AddToBatch` | src/batch.rs:187-208 | The request joins the end of its table's batch, with its rows and bytes, and no other batch changes; due exactly by rows, bytes or time. |
| `InsertBatcher.InsertBatcher.SealBatch` | src/batch.rs:343-355 | The batch leaves the map whole with its requests, its count and its statement, exactly if it has requests; no other batch changes. |
| `InsertBatcher.InsertBatcher.ExecuteSealed` | src/batch.rs:362-431 | One more flush, and one failure or the batch's rows; every request gets one reply, in order, with the number of its own rows or none. |
| `HealthChecker.UnhealthyIff` | src/health_checker.rs:396-468 | After any probe outcomes a node is unhealthy exactly when a run of failures as long as the failure threshold was reached more recently than any run of successes as long as the success threshold (a threshold of zero acts as one). |
| `HealthChecker.EventsAlternate` | src/health_checker.rs:419-466 | The changes of the flag alternate, starting with unhealthy, and the last one is the state; if no probe is aborted these are the events sent. |
| `HealthChecker.AbortsKeepState` | src/health_checker.rs:409-466 | With probes aborted before the lock or while sending, the record and the changes are still those of the outcomes seen under the lock. |
| `HealthChecker.SentAlternateIff` | src/health_checker.rs:430-458 | With probes aborted anywhere, the events sent alternate, starting with unhealthy, if and only if before each of them an even number of events had been lost. |
| `HealthChecker.ListenerIsRightIff` | src/health_checker.rs:430-458 | A listener takes the node for what it is if and only if an even number of events has been lost since the last one it got. |
| `HealthChecker.LostRecovery` | src/health_checker.rs:430-431 | A recovery whose event is cut short: two unhealthy events in a row. |
| `HealthChecker.CountersAreRuns` | src/health_checker.rs:410-450 | The counters are the lengths of the current runs of failures and successes, and the totals of checks and failures. |
| `HealthChecker.HealthChecker.CheckNodeHealth` | src/health_checker.rs:396-468 | One outcome moves the node's record, and no other, as the outcome function says, and sends its event. |
| `HealthChecker.HealthChecker.TryAcquire` | src/health_checker.rs:104-116 | A guard exactly if the node has none; otherwise one more skip. |
| `HealthChecker.HealthChecker.ReleaseGuard` | src/health_checker.rs:118-122 | The node, and no other, leaves the in-flight set. |
| `HealthChecker.OneProbePerNode` | src/health_checker.rs:270-378 | Over ticks, ends of probes for any reason, stops and restarts with old loops still winding down: the in-flight set is exactly the nodes with a live probe, no node has two, and every visit starts a probe or counts as skipped. |
| `HealthChecker.VisitSkipsIff` | src/health_checker.rs:270-378 | In every run, a loop that comes to a node skips it if and only if that node has a live probe, and otherwise starts one for it; a loop that has left does neither. |
| `GatewayPool.RunLaw` | src/gateway_pool.rs:81-131 | In every schedule, calls in progress included: clients handed back are idle, reused, discarded or being looked at; acquires have reused, missed or not decided; no list is over its limit. |
| `GatewayPool.CountersBalance` | src/gateway_pool.rs:81-136 | With no call in progress, idle plus reused plus discarded is all that was handed back, and reused plus missed is all acquires. |
| `GatewayPool.ClientsHaveOneOwner` | src/gateway_pool.rs:81-131 | In every schedule a client is idle once, or owned by one request, or gone. |
| `GatewayPool.ClientsServeTheirKey` | src/gateway_pool.rs:81-131 | In every schedule a client that is idle under a key, or in the hand of a request, was dialed for the key that the request was made with. |
| `GatewayPool.AloneMeaning` | src/gateway_pool.rs:81-107 | A checkout that runs alone hands out the most recently returned live client; the dead ones above it, and only those, are dropped and counted; a miss empties the list; no other list changes. |
| `GatewayPool.BackendClientPool.Acquire` | src/gateway_pool.rs:81-107 | The loop ends where the protocol's checkout ends when it runs alone, with all of that; with pooling off it only counts a miss. |
| `GatewayPool.BackendClientPool.Release` | src/gateway_pool.rs:111-124 | As the protocol: kept at the end of its own list if there is room, otherwise counted as discarded; the bound is kept. |
| `GatewayPool.BackendClientPool.IdleCount` | src/gateway_pool.rs:134-136 | The sum of the lengths of all lists. |
| `AutoPromote.Attempt` | src/auto_promote.rs:281-339 | For every answer of the cluster: at most one promotion, only after every enabled node was probed and none was writable and after the fence succeeded, of the eligible standby with the highest position (earliest on a tie) within the lag limit; success exactly when all of that and a later probe saw it writable; every refusal states a reason that is the case. |
| `AutoPromote.PickCandidate` | src/auto_promote.rs:126-142 | The candidate with the highest position, earliest on a tie, or the refusal that names it and its lag. |
| `AutoPromote.ProbeAll` | src/auto_promote.rs:288-301 | Stops at a writable primary; otherwise all enabled nodes have been probed and the candidates are exactly the reachable configured standbys. |
| `AutoPromote.Verify` | src/auto_promote.rs:322-338 | Succeeds exactly if some probe before the deadline sees the target writable, and ends with it. |
| `AutoPromote.OutageClock.Observe` | src/auto_promote.rs:114-121 | Presence clears the clock; absence keeps the start or sets it to now, and reports now less the start, and nothing less than zero. |
| `AutoPromote.ClockShowsOutage` | src/auto_promote.rs:114-121 | After any observations the clock holds the start of the outage still going on, and nothing otherwise. |
| `Scram.HonestExchange` | src/auth_scram.rs:169-257 | For every password, salt, iteration count and comma-free nonces, a client following section 5 of RFC 5802 is accepted and receives the signature it expects; it goes through with the exchange exactly when the iteration count is positive. |
| `Scram.FinishAnswers` | src/auth_scram.rs:212-257 | A well-formed final message is refused if it echoes another nonce, and is otherwise accepted exactly if its proof hashes to the stored key. |
| `Scram.StartHonest` | src/auth_scram.rs:169-207 | Every valid client-first message is split at its second comma and its nonce extended. |
| `Scram.StartMeaning` | src/auth_scram.rs:169-207 | For every first message: refused without two commas; otherwise the part after the second comma gives the first `r=` field, refused if missing or empty, and extended by the server's nonce otherwise. |
| `Scram.ServerFirstFields` | src/backend/auth.rs:118-153 | The client reads from the server-first message the nonce, salt and count that the server put there. |
| `Scram.Finish` | src/auth_scram.rs:212-257 | For every final message: without `,p=` the proof is missing; otherwise the part before its last occurrence gives the first `r=` field, missing, of another nonce, or the server's; then the proof after it is not Base64, not 32 bytes, wrong, or right, and only then the server signature is returned; every refusal has its own condition. The loops over bytes compute it. |
| `Scram.VerdictMeaning` | src/auth_scram.rs:212-257 | The same for the verdict as a function of the message. |
| `Scram.ConstantTimeEq` | src/auth_scram.rs:260-266 | The accumulating loop decides equality. |
| `Scram.VerifierRoundTrip` | src/auth_scram.rs:51-73 | A verifier in PostgreSQL's stored form is read back as it was written. |
| `Scram.ParseVerifierIff` | src/auth_scram.rs:51-73 | For every text and verifier: it parses as that verifier exactly if it is written in PostgreSQL's stored form with these fields. |

## Left out

- Sockets, TLS, HTTP framing, admin routes, gateway listeners, metrics text and log lines: input and output, no state of interest here.
- The other caches, the router, the plugin host and the edge components: not part of this model.
- Clocks and timeouts are inputs: ages, idle times, waits and deadlines appear as answers (`usable`, `expired`, `inTime`, `waited`).
- Liveness: nothing is proved about waiters being served, and cancellation of a call in the middle is not modelled; a connection dropped by its holder without return or close is not either.
- The cap is per registration of a node: across removal and re-adding, connections of an old registration can come back into the new pool.
- The pool's metrics counters, `total_created`, `total_closed`, use counts and time stamps.
- Integer widths: counters are unbounded; only `pg_lsn_to_u64`, placeholder numbers and SCRAM iteration counts have their width.
- Error texts; errors are kinds with the numbers they carry.
- The displayed failover state is written together with the neighbouring update of history or counter; no theorem speaks about it. Event channels are not modelled.
- The `state` field of an active replay, its progress figures and its statistics; in `ReplayProtocol` taking a replay out of the active set and adding its result to the history are one event, since the history plays no part there.
- Journal entries are data; whether a statement may end the transaction is the field `boundary` (the client refuses such a statement before sending it, src/backend/client.rs:182-196).
- FailoverReplay.Drive: the target's contents are the sequence of statements applied, not what the statements do, because the driver never looks inside.
- The cursor store itself and re-creating cursors; only the substitution is modelled.
- CursorRestore.InterpolateCursorParams: the query is its bytes, one character each; for queries beyond ASCII the code emits each byte as a character of its own. Comments, dollar quotes and E-strings are not known to the scanner and not to the model.
- CursorRestore.QuoteLiteral: decoding UTF-8 is a parameter.
- Scram.HonestExchange: HMAC, hash, PBKDF2 and Base64 are parameters with the laws in `Scram.Laws`; cryptographic strength is not a subject. The password file is not modelled.
- BulkInsert.BulkAgreesIff: what a database keeps outside its tables (sequences, clocks) and what a trigger does to other tables is not part of the rules.
- InsertBatcher.PrintReadsBack: only for names and values without commas and parentheses, because the code joins them as they come, without quoting.
- Averages kept in floating point by the batcher.
- Manual health marks, forced checks and removal of nodes in the health checker.
- The format of the gateway pool's key, and recording a client's session state before release.
- The scheduling of attempts around automatic promotion; a single attempt and the outage clock are modelled.

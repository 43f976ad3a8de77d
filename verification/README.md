# Weighing pipeline: model and proofs

A scale publishes readings to a Redis stream. A worker feeds them to an in-memory
stabilizer, which finalizes a passage of a truck when two consecutive windows of readings
are stable; the worker then runs one PostgreSQL transaction that turns the weight into a
final weighing, raises the inventory and closes the truck's transport. This project models
the three parts and the report over them, and proves what holds over whole runs.

| files | component |
|---|---|
| `Arithmetic`, `Rationals`, `OrderStatistics` | exact fractions, order statistics by counting |
| `Window`, `TheilSen`, `Outliers` | one window: percentiles, median, Theil-Sen slope, the verdict |
| `Keys`, `Rings`, `Sessions`, `Managers` | ring buffer, sessions on values, and `Manager` as a class tied to them |
| `Runs`, `Isolation`, `Passages`, `Guarantee` | runs of the manager: releases, isolation, refinement of a history machine |
| `Verdicts`, `Lifecycles` | exactly when a window is stable and what a finalization vouches for; Add and Expire case by case |
| `Finalizing`, `Conservation`, `Answers`, `Stores` | the ledger, finalization one at a time, exactly what it answers and writes, and the transaction as a class |
| `Transactions`, `Alone`, `Races` | many transactions interleaved: serial equivalence, monotone states, no deadlock |
| `Processing`, `Effects`, `Origins`, `Settlements`, `Processors` | the processor joining stabilizer and transaction, on values and as a class: effects of runs, where a recorded weight comes from, each call case by case |
| `Streams`, `Parsing`, `Workers`, `Retries`, `Outcomes`, `Delivery`, `Commands` | the stream worker as a class: what parses and to what, retry termination, each outcome, crashes and several consumers |
| `Reports`, `Books`, `Systems` | the report, redeliveries, and the ledger and report of the whole system |

Time is an integer number of nanoseconds with 0 for Go's zero time; differences saturate as
`time.Time.Sub` does. `big.Int` is `int`; values of Go type `int64` that the source computes
in an `int64` are checked not to wrap around. The choices the source leaves open are
arguments: which of several equally old sessions Go's map order evicts (`victim`), generated
UUIDs (`id`), and how each command, statement or write goes (`Luck`, `Fate`, `Trouble`,
`Weather`, `Conditions`).

Where the code and its documentation differ, the code is followed:

* The comment at internal/stabilizer/stabilizer.go:103-104 says a FAILED session is also
  released by a plate change; line 299 releases only FINALIZED ones. `Runs.FailedReleasedOnlyBy`
  states exactly when a FAILED session stays.
* The session id of a finalization is its scale and plate
  (internal/worker/finalizing_processor.go:59), so the database keeps one FINAL weighing per
  scale and plate ever; `Books.LaterPassageChangesNothing` says what a later passage gets.
* An event redelivered after its pending work is gone goes to the stabilizer again. Until
  its session is released the redelivery is refused and dead-lettered
  (`Books.RedeliveredIsRefused`); once the session is gone, by a low weight, an eviction or a
  restart, it is processed again (`Books.RedeliveredIsProcessedAgain`).
  `Books.RefusedCallIff` is the exact condition. Either way the event raises inventory at
  most once: in a run of one processor by `Effects.OneEventOnce`, across restarts and workers
  because no reachable ledger has two weighings of an event (`Systems.LedgerStaysSound`).
* A concurrent duplicate is not always told the winner: one that has finished its
  idempotency reads with nothing found can only fail (`Races.DuplicateSucceedsIff`).
* A batch stops at its first error (`Streams.BatchStopsAtFirstError`), so later entries may be
  processed before earlier ones. Nothing here claims stream order.

## Model

| member | source | states |
|---|---|---|
| Rationals.NewRational | internal/stabilizer/stabilizer.go:118-130 | the fraction built is in lowest terms with a positive denominator and has the value of its arguments, for any signs |
| Rationals.CanonicalIsUnique | internal/stabilizer/stabilizer.go:118-130 | two canonical fractions of equal value are the same fraction |
| Rationals.LeqTransitive | internal/stabilizer/stabilizer.go:367-371 | cross-multiplied comparison chains |
| Rationals.Midpoint | internal/stabilizer/stabilizer.go:376-383 | the average of two middle slopes is canonical and is their midpoint |
| Rationals.MidpointIsUnique | internal/stabilizer/stabilizer.go:376-383 | no other canonical fraction is their midpoint |
| Rationals.MidpointWithin | internal/stabilizer/stabilizer.go:136-140 | the midpoint of two slopes within a limit is within it |
| OrderStatistics.SortSlice | internal/stabilizer/stabilizer.go:331 | the slice ends up as the one ordered permutation of what it held |
| OrderStatistics.SortedIsUnique | internal/stabilizer/stabilizer.go:331 | any ordered permutation is that one, whatever the sorting algorithm |
| OrderStatistics.RankOfUpward | internal/stabilizer/stabilizer.go:344-346 | for an upward closed property, the k-th smallest element has it iff at least n-k elements do |
| OrderStatistics.RankOfDownward | internal/stabilizer/stabilizer.go:344-346 | for a downward closed property, the k-th smallest has it iff more than k elements do |
| OrderStatistics.TouchingBefore | internal/stabilizer/stabilizer.go:359-366 | how many index pairs of the nested loops can involve a given set of readings |
| Window.Sub | internal/stabilizer/stabilizer.go:323 | a time difference has the right sign and is exact inside int64 |
| Window.SlopeOrder | internal/stabilizer/stabilizer.go:367-371 | cross-multiplied comparison is a total order on canonical slopes |
| Window.SlopeCount | internal/stabilizer/stabilizer.go:357-366 | n readings have n(n-1)/2 slopes |
| Window.SortedWeightsArePositive | internal/stabilizer/stabilizer.go:327-335 | every ordered weight is positive and fits int64, so the median and dispersion do |
| Window.PercentilesInRange | internal/stabilizer/stabilizer.go:344-346 | both percentile indices are valid and in order for every length |
| Window.ComputeSlopes | internal/stabilizer/stabilizer.go:357-366 | the nested loops collect exactly the slopes of all pairs |
| Window.ComputeTheilSenSlope | internal/stabilizer/stabilizer.go:357-384 | the loops, the in-place sort and the middle compute the specified slope |
| Window.ComputeStats | internal/stabilizer/stabilizer.go:319-342 | evaluate's readiness tests, loops and sorts compute the specified statistics and verdict |
| TheilSen.SlopesAreAllPairs | internal/stabilizer/stabilizer.go:357-366 | every pair left < right is listed once and no other, each with the weight gained per second in lowest terms |
| TheilSen.TheilSenIsTheMedian | internal/stabilizer/stabilizer.go:357-384 | a fraction is the result iff it is canonical and the median of all pairwise slopes |
| TheilSen.MedianIsUnique | internal/stabilizer/stabilizer.go:372-383 | the median is determined by the slopes |
| TheilSen.CollinearIsExact | internal/stabilizer/stabilizer.go:354-384 | collinear readings give exactly their slope, in lowest terms |
| TheilSen.ShiftInvariant | internal/stabilizer/stabilizer.go:357-384 | adding a constant to all weights does not change the slope |
| TheilSen.ReflectionNegates | internal/stabilizer/stabilizer.go:357-384 | reflecting the weights negates the slope |
| Verdicts.VerdictIff | internal/stabilizer/stabilizer.go:319-352 | evaluate answers st iff the window has minSamples readings over minWindowDuration and st holds its nearest-rank P05 and P95, the middle of its two middle weights, its median slope, and stable exactly within the three limits, all by order statistics and inequalities |
| Verdicts.FinalizationReports | internal/stabilizer/stabilizer.go:250-262 | in any run a finalization carries the middle weight, count, dispersion and slope of the last window of its passage, the configured version and the time of its last reading |
| Verdicts.FinalizesIff | internal/stabilizer/stabilizer.go:237-269 | in any run an accepted reading finalizes iff the last two windows of its passage are each long enough and within every limit and no earlier two were; CANDIDATE iff the last one is and the passage is not finalized |
| Outliers.P95AtMost | internal/stabilizer/stabilizer.go:336-337 | P95 is at most v if at most (n-1)/20 readings exceed v |
| Outliers.P05AtLeast | internal/stabilizer/stabilizer.go:336-337 | P05 is at least v if at most (n-1)/20 readings are below v |
| Outliers.FewBadSlopes | internal/stabilizer/stabilizer.go:357-366 | corrupted readings touch at most a fifth of the slopes |
| Outliers.SlopeIgnoresBadReadings | internal/stabilizer/stabilizer.go:357-384 | the slope is within the limit if the slopes of clean pairs are |
| Outliers.OutlierProof | internal/stabilizer/stabilizer.go:319-384 | with at most (n-1)/20 arbitrarily corrupted weights and clean readings in tolerance, the window is stable and its median lies in the clean range |
| Keys.NormalizeCodeIdempotent | internal/domain/domain.go:84 | normalizing a code twice is normalizing it once |
| Keys.NormalizePlateIdempotent | internal/domain/domain.go:86-94 | normalizing a plate twice is normalizing it once |
| Parsing.CodeIff | internal/domain/domain.go:84 | a code is normalized to c iff c is the text without the space around it, in capitals |
| Parsing.PlateIff | internal/domain/domain.go:86-94 | a plate is normalized to p iff p is its letters and digits, in capitals |
| Parsing.SamePlateIff | internal/domain/domain.go:86-94 | two texts are the same plate iff their letters and digits agree up to case |
| Rings.Ring.Add | internal/stabilizer/stabilizer.go:406-415 | the contents become the last capacity elements of the old contents and the new one, through wrap-around |
| Rings.Ring.Values | internal/stabilizer/stabilizer.go:417-423 | the contents in insertion order |
| Rings.RingHoldsTheLast | internal/stabilizer/stabilizer.go:398-423 | after any additions the ring holds the last min(count, capacity) of them |
| Sessions.EvictsOldest | internal/stabilizer/stabilizer.go:305-317 | with no room, exactly a least recently seen session is dropped |
| Sessions.AdmitKeepsBounds | internal/stabilizer/stabilizer.go:208-218 | the bound holds, other sessions are unchanged, and no other finalized session of the scale is left |
| Sessions.DeliverKeepsInvariant | internal/stabilizer/stabilizer.go:219-248 | a session keeps its own key's readings, strictly increasing in time with no gap over the timeout |
| Sessions.AddKeepsInvariant | internal/stabilizer/stabilizer.go:205-248 | every Add keeps the manager invariant: session bound, one FINALIZED per scale, sound windows |
| Sessions.ExpireKeepsInvariant | internal/stabilizer/stabilizer.go:274-295 | every Expire keeps it, and keeps or reports each session, never both |
| Managers.Session.Accept | internal/stabilizer/stabilizer.go:237-248 | the ring, lastSeen and state end as the value specification says |
| Managers.Session.ApplyWindow | internal/stabilizer/stabilizer.go:250-269 | state and result follow the specification |
| Managers.Manager.New | internal/stabilizer/stabilizer.go:185-193 | a manager without sessions and with the default algorithm version if none is given, or none at all iff the configuration is invalid |
| Managers.Manager.State | internal/stabilizer/stabilizer.go:195-201 | the stored state of the normalized key, or EMPTY |
| Managers.Manager.ReleaseFinalizedForPlateChange | internal/stabilizer/stabilizer.go:297-303 | exactly the finalized sessions of other plates on the scale are deleted |
| Managers.Manager.MakeRoom | internal/stabilizer/stabilizer.go:305-317 | one least recently seen session is evicted if the manager is full, none otherwise |
| Managers.Manager.Add | internal/stabilizer/stabilizer.go:205-248 | the new sessions and the reply are those of the value specification, invariant kept |
| Managers.Manager.Expire | internal/stabilizer/stabilizer.go:274-295 | exactly the idle sessions are removed, each reported once, ordered by key |
| Runs.After | internal/stabilizer/stabilizer.go:205-317 | the manager invariant holds after every run of Add and Expire |
| Runs.ReleasedIff | internal/stabilizer/stabilizer.go:205-317 | a session ends at an event iff by plate change, timeout, low weight, expiry or eviction |
| Runs.FailedReleasedOnlyBy | internal/stabilizer/stabilizer.go:103-109 | a FAILED session stays unchanged iff there is no timeout, expiry or eviction |
| Runs.RefusedIff | internal/stabilizer/stabilizer.go:211-230 | Add answers a valid reading with an error iff its session is stored, within the inactivity gap, and FAILED or already as new; the session is then FAILED and otherwise unchanged |
| Runs.RefusesStays | internal/stabilizer/stabilizer.go:205-317 | a session that refuses a reading goes on refusing it until it is released |
| Runs.FailedSurvivesPlateChange | internal/stabilizer/stabilizer.go:297-303 | a reading of another plate on its scale leaves a FAILED session unless it is evicted |
| Runs.OneFinalizationPerPassage | internal/stabilizer/stabilizer.go:205-317 | between two finalizations of a key some event of the run released its session |
| Lifecycles.OwnStepIs | internal/stabilizer/stabilizer.go:205-269 | the session of a reading's key and the answer, for each case: FAILED, out of order, low or heavy weight after finalization, or joined to the window and decided by whether the last windowCapacity readings are ready and within the limits |
| Lifecycles.OthersAre | internal/stabilizer/stabilizer.go:205-218 | a session of another key is kept as it was iff it is neither finalized on the same scale nor evicted, and no other session appears |
| Lifecycles.EvictionIs | internal/stabilizer/stabilizer.go:305-317 | one session is evicted iff the key has none left and the manager is full; it is a least recently seen one of those left, and the chosen one if that is |
| Lifecycles.ExpireIs | internal/stabilizer/stabilizer.go:274-295 | Expire removes exactly the sessions idle for longer than the timeout and reports finalized ones EMPTY and others ABANDONED |
| Lifecycles.InvalidReadingIff | internal/stabilizer/stabilizer.go:386-396 | a reading is invalid iff its code is blank, its plate has no letter or digit, its weight is not positive or its time is zero; nothing changes then |
| Isolation.ScaleIsolation | internal/stabilizer/stabilizer.go:205-317 | in a run that never fills the manager, sessions and results of a scale are those of running its readings and the expiries alone |
| Passages.FinalizedBySomePair | internal/stabilizer/stabilizer.go:250-269 | a history is finalized iff some prefix ends with two consecutive stable windows |
| Passages.FinalizationNeedsSamples | internal/stabilizer/stabilizer.go:319-326 | a finalization needs at least minSamples + 1 readings |
| Passages.RunsRefine | internal/stabilizer/stabilizer.go:205-317 | every run has the sessions and outputs of a machine that keeps histories instead of rings and states |
| Passages.EndsWithLast | internal/stabilizer/stabilizer.go:205-248 | in any run, an answered reading that leaves its session stored has joined the history of its passage, the reply is the verdict on that history and the stored session is the one it determines |
| Passages.AcceptedHistory | internal/stabilizer/stabilizer.go:205-248 | readings of one key that are accepted one after the other, with no others around, are its history |
| Passages.FinalizationPoint | internal/stabilizer/stabilizer.go:237-269 | in any run and among any other sessions, the one finalization comes exactly at the first pair of consecutive stable windows of the passage, with the median of the second; CANDIDATE iff only the last window is stable |
| Guarantee.CleanPassageFinalizes | internal/stabilizer/stabilizer.go:205-384 | in any run, two clean windows at the end of a passage's accepted readings finalize it with a weight in the clean range |
| Finalizing.RoundQuotientIsNearest | internal/finalization/finalization.go:101-104 | the rounded cost quotient is within half a unit, ties up |
| Answers.MarginIs | internal/finalization/finalization.go:115-119 | for 0 <= stock <= target the margin m is the one with target * (2000 - m) <= 1500 * stock < target * (2001 - m), and it is 500 from the target on |
| Finalizing.FindByEvent | internal/finalization/finalization.go:197-199 | a weighing of the event, or proof that there is none |
| Finalizing.FindBySession | internal/finalization/finalization.go:200-202 | a weighing of the session and stage, or proof that there is none |
| Finalizing.FindExisting | internal/finalization/finalization.go:70-87 | an existing weighing for the event or the session, or proof that there is none |
| Finalizing.MatchIsUnique | internal/finalization/finalization.go:163-172 | in a sound database the locking query finds at most one transport, also by plate |
| Finalizing.InsertedRowMeetsChecks | db/migrations/000003_t06_final_weighings.up.sql:31-39 | the row a validated input inserts meets every CHECK |
| Conservation.RecordKeepsSound | internal/finalization/finalization.go:105-136 | the three writes keep conservation, unique keys, one weighing per WEIGHED transport and sound rows |
| Conservation.FinalizeRecords | internal/finalization/finalization.go:60-141 | Finalize changes nothing unless it succeeds with a new row |
| Conservation.FinalizeKeepsSound | internal/finalization/finalization.go:60-141 | every finalization, successful or not, keeps the ledger sound |
| Conservation.OpenKeepsSound | db/migrations/000001_t02_registrations.up.sql:69-71 | opening keeps it sound; a truck never has two OPEN transports |
| Conservation.CancelKeepsSound | db/queries/registrations.sql:121-125 | cancelling keeps it sound |
| Conservation.RetryReturnsWinner | internal/finalization/finalization.go:70-87 | after a success, any valid input of the same event and session gets the same weighing and changes nothing |
| Conservation.MarginNonIncreasing | internal/finalization/finalization.go:115-119 | along the weighings of one branch and grain the margin never rises and stays in range |
| Answers.FinalizeAnswers | internal/finalization/finalization.go:60-141 | each of the answers iff its cause, with the joins of the locking query spelled out; a new row has every field from the input, the transport of the scale's branch and the registrations, net weight, cost and margin by inequalities, and the database changes by it alone |
| Answers.OpenedIff | db/queries/registrations.sql:105-113 | the row is inserted, OPEN and unchanged, iff its id is new, its references exist, its price is not negative and its truck has no OPEN transport |
| Answers.CancelledIff | db/queries/registrations.sql:121-125 | exactly an OPEN transport becomes CANCELLED and nothing else changes |
| Stores.Store.Upsert | internal/finalization/finalization.go:105-114 | the inventory row is raised by the net weight and returned |
| Stores.Store.ReadExisting | internal/finalization/finalization.go:70-87 | the two idempotency reads find what the specification finds |
| Stores.Store.LockReady | internal/finalization/finalization.go:89-98 | not-found, conflict and validation errors come exactly as specified, otherwise the transport is ready |
| Stores.Store.Write | internal/finalization/finalization.go:99-141 | the statements record the specified row, or roll back, or commit with a lost reply |
| Stores.Store.Finalize | internal/finalization/finalization.go:60-141 | without trouble the answer, the new row and the database are those `Answers.FinalizeAnswers` describes; a failing statement changes nothing; a lost reply leaves the effect |
| Stores.Store.Create | internal/application/service.go:218-233 | invalid iff a reference is blank or not active; otherwise the OPEN transport with the grain's price is added under a new id, or refused by a constraint |
| Stores.Store.Open | db/queries/registrations.sql:105-113 | the insert happens iff no constraint refuses it |
| Stores.Store.Cancel | internal/application/service.go:240-256 | only CANCELLED may be asked for and only an OPEN transport becomes CANCELLED; the three refusals are told apart by their cause |
| Stores.Store.UpdateCancelled | db/queries/registrations.sql:121-125 | the conditional update changes one row iff it is OPEN, whatever was read before |
| Alone.AloneIsFinalize | internal/finalization/finalization.go:60-141 | without interference the steps of the machine give exactly the database and the answer of Finalize, business errors included |
| Transactions.StatementKeepsDisjoint | internal/finalization/finalization.go:89-136 | no statement acquires a row, inventory or index entry another transaction holds |
| Transactions.CommitKeepsOther | internal/finalization/finalization.go:137-139 | a commit leaves everything another in-flight transaction relies on as it was |
| Transactions.CommitIsFinalize | internal/finalization/finalization.go:60-141 | at its commit a transaction does exactly what Finalize alone would do at that moment |
| Transactions.StepKeepsInv | internal/finalization/finalization.go:60-141 | every step of any transaction, opening, cancelling or abort keeps the invariant |
| Transactions.SerialEquivalence | internal/finalization/finalization.go:60-141 | after any interleaving the database equals a serial replay of the committed operations in commit order, each finalization adding one row, and is conserved with unique keys |
| Races.StatusesMoveForward | db/queries/registrations.sql:121-125 | in every interleaving statuses only go from OPEN to CANCELLED or WEIGHED, weighings are only appended, inventories never fall |
| Races.NoSurprises | internal/finalization/finalization.go:121-136 | in every reachable state the inserted row meets the CHECKs, the conditional update affects exactly one row, and a reported success is committed |
| Races.RetryIsToldTheWinner | internal/finalization/finalization.go:183-195 | once a weighing is committed, a later retry is told that weighing or a database error, whatever runs in between |
| Races.DuplicateSucceedsIff | internal/finalization/finalization.go:70-87 | once a weighing of its session is committed, a transaction in flight is answered with success iff it had not finished its idempotency reads with nothing found |
| Races.WaitsForLaterOnly | internal/finalization/finalization.go:89-136 | a transaction waits only for one further along in the lock order |
| Races.NoWaitCycle | internal/finalization/finalization.go:89-136 | no reachable state has a cycle of waiting transactions |
| Races.SomeTransactionProceeds | internal/finalization/finalization.go:89-141 | while a transaction is in flight, some one is not blocked and its next step brings it closer to its end |
| Processing.PendingAfter | internal/worker/finalizing_processor.go:50-93 | pending work changes only by its own event, stays while results are transient, and Add is called exactly when there is none |
| Processing.RetriedWorkIsStable | internal/worker/finalizing_processor.go:46-94 | until an event's first success or permanent error Add is called once and every attempt gets the identical input |
| Effects.LedgerStaysSound | internal/worker/finalizing_processor.go:82-93 | the ledger stays sound in every run of one processor |
| Effects.AtMostOnce | internal/worker/finalizing_processor.go:58-92 | two calls of a run never both change the ledger for the same session and stage |
| Effects.OneEventOnce | internal/worker/finalizing_processor.go:46-94 | one event raises inventory at most once: two calls of a run that change the ledger are of different events, before and after the first success |
| Effects.SessionIDInjective | internal/worker/finalizing_processor.go:59 | session ids tell scale and plate keys apart, although a scale code may contain the separator |
| Effects.AddReports | internal/stabilizer/stabilizer.go:250-262 | a finalization reports a positive weight and sample count, a dispersion that is not negative and a real time, for its reading's key |
| Effects.BuiltInputIsValid | internal/worker/finalizing_processor.go:57-71 | the input built from a finalization passes validation iff the event id is a UUID and the algorithm version is not blank |
| Origins.AttemptIs | internal/worker/finalizing_processor.go:50-73 | a call without pending work attempts a finalization iff Add reports one for the event's own reading, and asks to record exactly its weight, count, dispersion, slope, version and time for the event's id, scale and plate |
| Origins.AttemptIsMeasured | internal/worker/finalizing_processor.go:46-94 | every input that a run attempts to record is the measurement of the last window of a passage that a call of the same event ended |
| Origins.RecordedIsMeasured | internal/worker/finalizing_processor.go:46-94 | end to end: a row that a run first records has the middle weight of the last window of its passage as gross weight, and its amounts follow from it |
| Settlements.CallIs | internal/worker/finalizing_processor.go:46-94 | each call in every state and for every fate of its write: which work it settles, what becomes of the ledger, the event rows and the pending work, and its result |
| Processors.EventLedger.Process | internal/worker/worker.go:107-113 | the first row of an event is kept, through failures and lost replies, and a stream id belongs to one event |
| Processors.FinalizingProcessor.Process | internal/worker/finalizing_processor.go:46-94 | sessions, pending work, database and result are those of the value specification |
| Parsing.ParseIff | internal/worker/worker.go:367-397 | an entry is accepted as the event e iff e has its trimmed UUID, its code and seven-character plate in capitals, the positive number its weight spells and its two times |
| Parsing.RefusalIff | internal/worker/worker.go:367-397 | an entry is refused with a reason iff that names the first of its faults |
| Parsing.ParseIntIff | internal/worker/worker.go:382 | a text parses to v iff it is a decimal numeral of v, with an optional sign and leading zeros |
| Parsing.IntTextParses | internal/worker/worker.go:382 | the decimal text of any int64 parses to it |
| Parsing.UuidIff | internal/worker/worker.go:373 | the 36-character form is groups of 8, 4, 4, 4 and 12 hexadecimal digits joined by dashes |
| Streams.ParsedReadingIsValid | internal/worker/worker.go:367-397 | a parsed event is a valid reading of exactly its scale and plate, unless measured at the zero time |
| Streams.BatchStopsAtFirstError | internal/worker/worker.go:265-273 | messages after the first error of a batch have no influence |
| Workers.Redis.Eval | internal/worker/worker.go:336-340 | dead-lettering, acknowledging and dropping the counter happen together or not at all |
| Workers.Worker.IncrementAttempt | internal/worker/worker.go:316-326 | the attempt is counted even when the expiry then fails |
| Workers.Worker.Bury | internal/worker/worker.go:331-346 | the message is moved, and counted only if the script answered |
| Workers.Worker.ProcessMessage | internal/worker/worker.go:276-314 | group, counters and error are those of the value specification, for every failure of every command |
| Workers.Worker.ProcessMessages | internal/worker/worker.go:265-274 | the loop handles messages in order up to the first error |
| Workers.Worker.Recover | internal/worker/worker.go:231-251 | the cursor and the claimed batch are as specified, an unreachable Redis changes nothing |
| Workers.Worker.ProcessNew | internal/worker/worker.go:218-226 | what is read is pending before it is handled, also when the reply is lost |
| Retries.MessageProgresses | internal/worker/worker.go:276-314 | on a healthy Redis handling a pending message, whatever its counter, uses up a try or removes exactly that message |
| Retries.RecoverProgresses | internal/worker/worker.go:231-300 | every non-empty Recover strictly lowers the sum of tries left, from any counters |
| Retries.BatchKeepsBelowLimit | internal/worker/worker.go:276-314 | on a healthy Redis pending entries below the retry limit stay below it |
| Retries.EmptyOnlyAtTheEnd | internal/worker/worker.go:240-247 | with all entries idle an empty claim means the cursor was past the end, and the next one starts over |
| Retries.DrainsWithin | internal/worker/worker.go:231-300 | 2 * pending * limit + 1 calls of Recover empty the pending list, whatever the counters, the cursor and the processor's answers |
| Outcomes.HandledIs | internal/worker/worker.go:276-346 | on a healthy Redis: a malformed entry or permanent error is dead-lettered at once, a transient one iff its attempt reaches the limit, with id, fields, reason and attempts; otherwise it stays pending and counted, or leaves processed |
| Outcomes.UnhealthyKeeps | internal/worker/worker.go:276-346 | whatever commands fail, the entry is still pending, or dead-lettered with its fields, or was processed and its acknowledgement may have run |
| Outcomes.WaitsBelowLimit | internal/worker/worker.go:276-300 | among any other messages, one that keeps failing transiently is pending with as many attempts as tries while these are below the limit |
| Outcomes.GivenUpAtLimit | internal/worker/worker.go:293-295 | and the try that reaches the limit dead-letters it with exactly that many attempts |
| Outcomes.ClaimedIs | internal/worker/worker.go:231-247 | a claim looks at consecutive entries from the cursor, at most 10 per requested one, takes the idle ones in order, and ends at the end of the list, with a full batch or with that many looked at |
| Outcomes.ClaimedIff | internal/worker/worker.go:231-247 | of a list in id order it takes exactly the idle entries from the cursor up to the next one |
| Outcomes.ReadIs | internal/worker/worker.go:218-226 | a read hands out the next undelivered entries, as many as asked for or all, and they are pending after the others |
| Commands.CommandsAreHandle | internal/worker/worker.go:276-314 | a consumer that runs the commands of a message one by one ends with the group and batch processMessage leaves, for every way the commands may go |
| Delivery.ProcessIsSafe | internal/worker/finalizing_processor.go:46-94 | a processor call that reports success left a ledger row or weighing of the event or its session |
| Delivery.StepIsSafe | internal/worker/worker.go:276-346 | every command, crash or foreign transaction keeps every delivered message accounted for |
| Delivery.NoMessageLoss | internal/worker/worker.go:276-346 | in every run with several consumers, crashes between any two commands and raced finalizations, each delivered message is pending, or dead-lettered with its original fields, or durably recorded |
| Reports.GroupsAddUp | internal/reports/reports.go:53-84 | the sums of the groups add up to the sum over all filtered rows |
| Reports.HalfUpIsRound | internal/reports/reports.go:94-98 | Go's half-up average equals the rounded exact average |
| Reports.Accumulate | internal/reports/reports.go:77-99 | the accumulated totals are the ungrouped aggregate |
| Reports.SelectedIs | internal/reports/reports.go:65-70 | the rows kept are those of FINAL weighings of WEIGHED transports, of the trimmed branch and grain if given, from start to end inclusive if given, each once and in order |
| Reports.TotalsAre | internal/reports/reports.go:53-99 | sums of net weight and cost, the number of rows, and averages within half a unit of the exact ones, ties up |
| Reports.GroupIsTotals | internal/reports/reports.go:53-71 | an item is the totals of the rows of its branch and grain |
| Reports.Query | internal/reports/reports.go:49-101 | an inverted interval is an error; otherwise items are the groups and totals the aggregate of exactly the rows the filter asks for |
| Reports.NetTotalIsAllStock | internal/reports/reports.go:53-84 | the unfiltered net total of FINAL weighings is the sum of all inventories |
| Reports.CostTotalIsClose | internal/finalization/finalization.go:101-104 | the total cost is within half a minor unit per row of the exact one |
| Books.LaterPassageChangesNothing | internal/worker/finalizing_processor.go:59 | with a FINAL weighing of the scale and plate, any later passage gets an existing weighing and changes nothing |
| Books.RefusedCallIff | internal/worker/finalizing_processor.go:50-56 | a call without pending work fails its session iff the session refuses the reading; it is then a permanent error that writes nothing, and otherwise its work is settled |
| Books.RedeliveredIsRefused | internal/worker/finalizing_processor.go:50-56 | an event given to Add whose session is not released meanwhile is refused when it comes again without pending work: permanent, nothing written |
| Books.RedeliveredIsProcessedAgain | internal/worker/finalizing_processor.go:50-81 | once the session is gone the redelivery succeeds again, changes no weighing and no inventory, and keeps the event's first row |
| Books.RefusalIsNotCertain | internal/worker/worker.go:302-305 | a recorded event whose acknowledgement failed before a restart is an input for which the redelivery is processed again |
| Books.ReportAgreesWithStock | internal/reports/reports.go:49-101 | after any run of one processor on its ledger the report's net total is the sum of all inventories |
| Systems.LedgerStaysSound | internal/finalization/finalization.go:60-141 | in every state of the whole system, with several workers, crashes, races, openings and cancellations, the ledger is conserved and no session and no event has two weighings |
| Systems.ReportAgreesWithStock | internal/reports/reports.go:49-101 | in every such state the report's unfiltered net total is the sum of all inventories |

## Left out

- HTTP routes, JSON, authentication, registration of branches, scales, trucks and grains, health checks, logging and the simulator: no state that the properties above depend on.
- Foreign transactions other than finalizing, opening and cancelling; registration rows (tare weights, targets, scale codes) are fixed during a run.
- The ABANDONED state written into a stale session just before Add drops it: nothing can observe it.
- RFC 3339 texts are represented by what they parse to, and Unicode letters, digits, case and space by their ASCII counterparts.
- The detail a UUID parser adds to the reason of a refusal.
- Parsing.CodeIff: for ASCII case and space.
- Parsing.PlateIff: for ASCII letters and digits.
- Parsing.SamePlateIff: for ASCII letters and digits.
- Keys.NormalizeCodeIdempotent: for ASCII case and space; Unicode case mapping is not modelled.
- Keys.NormalizePlateIdempotent: for ASCII letters and digits; the source keeps Unicode ones.
- Stores.Store.Cancel: nobody else changes the row between its read and its update; `Stores.Store.UpdateCancelled` states the update alone, whose zero rows the source reports as changed concurrently.
- The textual forms of a UUID other than the 36-character one (braces, urn prefix, no dashes) are not accepted by the model.
- Generated identifiers are assumed not to collide, so the primary keys of weighings and transports are checked only for transports.
- PostgreSQL's NUMERIC division is exact here and ROUND is half away from zero; overflow of BIGINT sums and casts, in the transaction and in the report, is not modelled (in the transaction it is one more statement that fails).
- A weighing returned by an idempotency read carries all columns here; the source returns the ones it selects.
- Transactions.SerialEquivalence: a cancel is its conditional UPDATE; the read before it only decides which error is reported. An INSERT of a transport that waits for a finalization of the same truck is a step that happens after it.
- Redis trims no stream entry that is still pending, and an expiring attempt key is a step of Delivery but not of Retries.
- The owner and idle clock of a pending entry are not state: which entries are idle, or claimed by whom, is an argument.
- Delivery.ProcessIsSafe: a success is recorded for the event id, or for the session of some delivered message with that event id.
- Delivery.StepIsSafe: a raced finalization may happen at any call here, also where no other transaction would cause it.
- Delivery.NoMessageLoss: the record of an acknowledged message is of its event id, or of the session of some delivered message with that event id, because a processor keeps working on the message it saw first.
- The mutexes of Worker and FinalizingProcessor: methods run one at a time per worker.
- Reports.Query: without the branch and grain codes; the groups come in any order that lists each once.

# Verified model of the rApp SDK

This project models the parts of the OTAF rApp SDK (`otaf-rapp-sdk`) that keep state or do arithmetic and
promise something over a whole run, and proves those promises in Dafny 4.11. `dafny verify dfyconfig.toml`
checks all of it.

| module | models |
|---|---|
| `Retry` | retry policies and backoff, the verdict on an error chain, the retry loop |
| `Ingest` | the ingest pipeline as interleaved steps over its bounded channel |
| `DeadLetter` | the dead-letter queue: what each critical section does, and the queue object with its directory |
| `DeadLetterRuns` | the same queue under overlapping calls, one critical section a step |
| `DeadLetterReplays` | how often and how far apart replays hand a message out |
| `DeadLetterEntries` | what a parked entry remembers, when it expires, and when a replay takes it |
| `EndToEnd` | a pipeline around a handler wrapped by the queue |
| `Buckets` | the ring of wall-clock slots |
| `Stats` | least-squares slope and interpolated percentile, over the reals |
| `Cooldown` | the cooldown guard |
| `Registry` | bounded histories and the registry of entities |
| `Lockout` | the login lockout table |
| `LockoutOverlap` | the same for logins that overlap |
| `Producer` | the job table and delivery cadence of the R1 producer |
| `LineProtocol` | the line printer, and a reader for its heads |
| `LineFields` | the printed fields, and a reader for whole lines |
| `Counters` | counter tables in two XML forms and VES, object names |
| `Strings` | sorted keys |
| `Wrappers` | options, and what several modules need of sets and products |

Times and durations are integer nanoseconds since the Unix epoch and floats are reals, with NaN as a value of
its own where the source looks for it. Handlers, contexts, clocks, jitter and the ids of parked messages are
inputs: a handler may return anything, an id need only be new. Where Go iterates over a map, or sorts with an
unstable sort, the model allows every order. An object with fields that its methods update is a class; what
overlaps in time is a transition system whose steps are the channel operations, the atomic counters and the
critical sections, and its theorems are about every run.

Where the code and what is said about it differ, the model follows the code:

- `Run` is documented to return once the queue has drained. It is certain to have only if nothing is sent after
  the context has ended (`Ingest.DrainedForCertainExactly`); `Ingest.LeftAtReturn` says exactly what is left.
- `OverflowDrop` is documented to keep the newest data flowing. An arriving message enters only if there is room;
  otherwise it is the one dropped (`Ingest.ArrivalEntersIfRoom`, `Ingest.NewestIsRefused`).
- The counters are said to treat every message alike. They leave out a blocked `Submit` whose context ends, and
  nothing else (`Ingest.CountersCoverSubmissions`, `Ingest.AbandonedIsUncounted`).
- A type that omits its position is documented to fall back to document order. It does if and only if its place
  is below the highest position given and no type names that place last with another name
  (`Counters.FallsBackExactly`).
- The first backoff delay is not cut to the maximum (`Retry.MonotoneAndCappedExactly`).
- A pipeline without a handler counts nothing it takes (`Ingest.CountersSuffice`).
- A slot of the ring is documented to be reset if it holds an older period. An event older than the ring resets
  one that holds a newer period, so events can be lost (`Buckets.LateEventWipes`, `Buckets.CountsExactly`); and two
  slots around the epoch may share a place (`Buckets.AliasExactly`).
- Two replays of the dead-letter queue at once may hand a message out more often than the limit and without a wait
  (`DeadLetterReplays.BoundedForCertainExactly`, `DeadLetterReplays.SpacedForCertainExactly`).
- Five failures are meant to lock an address out. A full table may forget them, and logins under way when the lock
  is set still fail after it (`Lockout.RationedForCertainExactly`, `LockoutOverlap.BoundIsExact`).
- A name ending in a backslash, or containing a newline, cannot be read back from a printed line
  (`LineProtocol.LineReadsExactly`).

## Model

| member | source | states |
|---|---|---|
| `Retry.Policy.Normalise` | otaf-rapp-sdk/retry/retry.go:55-75 | every policy is repaired into range, and one already in range is left as it is |
| `Retry.PolicyDefaults` | otaf-rapp-sdk/retry/retry.go:55-75 | the defaults of the source, each field on its own |
| `Retry.Backoff` | otaf-rapp-sdk/retry/retry.go:77-101 | the multiply-and-cap loop with its early exit computes the closed form `Delay`: capped exponential, jittered, truncated |
| `Retry.GrownIsPower` | otaf-rapp-sdk/retry/retry.go:84-91 | the delay before the cap is initial * multiplier^(n-1) |
| `Retry.JitterSpreads` | otaf-rapp-sdk/retry/retry.go:93-96 | jitter spreads the draws evenly around the base, the middle draw leaving it as it is |
| `Retry.DelayBounds` | otaf-rapp-sdk/retry/retry.go:93-100 | a drawn delay lies between (1 - jitter) and (1 + jitter) times its base, up to the truncation to whole nanoseconds |
| `Retry.BaseMonotoneWhenCapped` | otaf-rapp-sdk/retry/retry.go:84-91 | with the first delay within the maximum, the base is min(initial * multiplier^(n-1), max) and never shrinks |
| `Retry.MonotoneAndCappedExactly` | otaf-rapp-sdk/retry/retry.go:84-91 | the base delays grow monotonically, and stay within the maximum, if and only if the first delay is within the maximum |
| `Retry.RetryableExactly` | otaf-rapp-sdk/retry/retry.go:110-124 | for any tree of wrapped and joined errors: retryable if and only if nothing in it is marked permanent and the first error with an answer of its own, if any, says yes |
| `Retry.ChainIsReached` | otaf-rapp-sdk/retry/retry.go:110-124 | the chain searched holds exactly the errors that some path of causes reaches |
| `Retry.FirstToAnswer` | otaf-rapp-sdk/retry/retry.go:119-123 | an error's own answer comes before those of its causes, and of joined causes the first with an answer gives it |
| `Retry.PermanentWins` | otaf-rapp-sdk/retry/retry.go:126-137 | an error marked permanent stays unretryable under any further wrapping, whatever the wrappers or the error itself say |
| `Retry.Do` | otaf-rapp-sdk/retry/retry.go:152-187 | the calls made are attempts 1 to k, k at most the limit; all but the last failed retryably and were waited out; how it ended, the attempts reported and every timer set follow from what the calls and the context did |
| `Retry.WaitsBackOff` | otaf-rapp-sdk/retry/retry.go:173-184 | the i-th wait is the i-th base delay give or take its jitter, the first one the initial delay |
| `Retry.ExplanationUnique` | otaf-rapp-sdk/retry/retry.go:152-187 | that contract is complete: the same context, outcomes and draws admit one result, one list of calls and one list of waits |
| `Retry.PermanentStops` | otaf-rapp-sdk/retry/retry.go:166-172 | an attempt whose error carries the permanent marker anywhere in its chain is the last one and its error is what is returned |
| `Retry.TotalWaitBounded` | otaf-rapp-sdk/retry/retry.go:173-184 | a run sleeps at most (attempts - 1) times max * (1 + jitter) in all |
| `Ingest.QueueInOrder` | otaf-rapp-sdk/ingest/ingest.go:147-173 | in every interleaving: what left the channel followed by what is in it is what was sent, in order; the channel stays within its capacity; accepted plus the sends not yet counted is the number sent; blocking mode has refused nothing |
| `Ingest.SubmissionsHaveOutcomes` | otaf-rapp-sdk/ingest/ingest.go:144-173 | in every interleaving: the messages handed to Submit are, as a multiset, those still waiting, sent, refused and abandoned; the dropped counter counts the refusals; drop mode has abandoned nothing |
| `Ingest.SubmittedAsOffered` | otaf-rapp-sdk/ingest/ingest.go:147-150 | a message keeps the time it was received at, one without gets the clock, and nothing else of it changes |
| `Ingest.CountersCoverSubmissions` | otaf-rapp-sdk/ingest/ingest.go:147-173 | submitted = waiting + accepted + dropped + abandoned (with the counter updates still to come), so the counters account for every submission if and only if none was abandoned |
| `Ingest.CoveredForCertainExactly` | otaf-rapp-sdk/ingest/ingest.go:147-173 | once every Submit has returned the counters account for every submission, in every run, if and only if the pipeline does not block |
| `Ingest.AbandonedIsUncounted` | otaf-rapp-sdk/ingest/ingest.go:165-171 | a run in which a blocked Submit whose context ends leaves every counter at zero |
| `Ingest.ArrivalEntersIfRoom` | otaf-rapp-sdk/ingest/ingest.go:152-163 | in drop mode an arriving message enters if and only if the channel has room; otherwise it is the one refused, and the channel keeps the older messages it is full of |
| `Ingest.NewestIsRefused` | otaf-rapp-sdk/ingest/ingest.go:60-61 | against the comment on OverflowDrop: for any messages that fill the channel, a run in which they stay and the newest is dropped |
| `Ingest.RunIsPlaced` | otaf-rapp-sdk/ingest/ingest.go:232-275 | every message taken is in the hands of exactly one worker or settled in exactly one way, so none is handled twice and none is lost; the counters are the sizes of the settled sets |
| `Ingest.SentAccounted` | otaf-rapp-sdk/ingest/ingest.go:255-275 | sent = queued + in flight + processed + failed + swallowed, in every reachable state |
| `Ingest.CountersSuffice` | otaf-rapp-sdk/ingest/ingest.go:255-258 | the counters alone account for every message if and only if none was swallowed: never with a handler, and always once one is dispatched without a handler |
| `Ingest.OneWorkerHandlesInOrder` | otaf-rapp-sdk/ingest/ingest.go:114-122 | with one worker the message in hand is the next in send order and exactly those before it are settled |
| `Ingest.LeftAtReturn` | otaf-rapp-sdk/ingest/ingest.go:186-253 | when Run returns, the channel holds exactly what was sent after the last worker's final empty check |
| `Ingest.SettledAtReturn` | otaf-rapp-sdk/ingest/ingest.go:186-253 | when Run returns, every message that entered the channel before the context ended has been settled; so the channel is drained if nothing entered after that |
| `Ingest.DrainedForCertainExactly` | otaf-rapp-sdk/ingest/ingest.go:186-187 | every schedule with a given number of sends after the end of the context drains the channel if and only if that number is zero |
| `Ingest.ReturnsWithMessageQueued` | otaf-rapp-sdk/ingest/ingest.go:186-187 | for any positive number of late sends, a run in which Run returns with an accepted message still queued, against the comment that the queue has drained by then |
| `DeadLetter.Config.ApplyDefaults` | otaf-rapp-sdk/dlq/dlq.go:69-88 | every configuration becomes usable, and a usable one is left as it is |
| `DeadLetter.ConfigDefaults` | otaf-rapp-sdk/dlq/dlq.go:69-88 | the defaults of the source, each field on its own |
| `DeadLetter.Queue.constructor` | otaf-rapp-sdk/dlq/dlq.go:126-147 | a new queue holds what load finds in the directory with all counters zero; it starts out mirrored on disk if and only if the readable files are named by their ids |
| `DeadLetter.Queue.Load` | otaf-rapp-sdk/dlq/dlq.go:471-500 | every readable file is parked again under its id and every unreadable one set aside, never dropped |
| `DeadLetter.LoadMirrorsExactly` | otaf-rapp-sdk/dlq/dlq.go:471-500 | memory and directory agree after load if and only if each readable file is named by its id |
| `DeadLetter.RestartRestores` | otaf-rapp-sdk/dlq/dlq.go:471-500 | a directory that mirrors a queue restores exactly that queue |
| `DeadLetter.Queue.ExpireLocked` | otaf-rapp-sdk/dlq/dlq.go:413-422 | the loop drops exactly the entries older than the age limit, counts them, and deletes their files |
| `DeadLetter.Queue.Oldest` | otaf-rapp-sdk/dlq/dlq.go:430-439 | the scan with the empty id as sentinel finds an entry with the earliest failure, and yields the sentinel only for an empty queue |
| `DeadLetter.Queue.EvictLocked` | otaf-rapp-sdk/dlq/dlq.go:424-444 | expiry, then the overflow loop, leave a choice of the newest below the limit, counted and mirrored on disk; the loop ends |
| `DeadLetter.ParkKeepsTheNewest` | otaf-rapp-sdk/dlq/dlq.go:204-208 | after parking there are at most MaxEntries entries however many load brought, the new one among them; nothing that overflowed failed later than anything older that stayed; an older entry that shares its time with no other stays if and only if fewer than MaxEntries - 1 failed later |
| `DeadLetter.NoNeedlessOverflow` | otaf-rapp-sdk/dlq/dlq.go:426-444 | below the limit overflow drops nothing |
| `DeadLetter.AdmitsConserves` | otaf-rapp-sdk/dlq/dlq.go:204-208 | parking balances the books: every entry is still parked, or counted as expired or overflowed |
| `DeadLetter.Queue.Park` | otaf-rapp-sdk/dlq/dlq.go:182-215 | a message is not parked if and only if something in the chain of its error is marked permanent or the first to have an answer says no; it is then only counted as rejected, and otherwise admitted as specified, among at most MaxEntries; the directory stays in step |
| `DeadLetter.HopelessExactly` | otaf-rapp-sdk/dlq/dlq.go:183-188 | which failures are refused, by the errors in their chain |
| `DeadLetter.Queue.RecordFailed` | otaf-rapp-sdk/dlq/dlq.go:326-357 | one more attempt with the next delay, or giving up at the limit; unknown ids are left alone; the directory follows |
| `DeadLetter.RecordFailureConserves` | otaf-rapp-sdk/dlq/dlq.go:326-357 | a recorded failure balances the books |
| `DeadLetter.Queue.Discard` | otaf-rapp-sdk/dlq/dlq.go:359-370 | forgets exactly the named entry, in memory and on disk, and says whether it was there |
| `DeadLetter.Queue.Retry` | otaf-rapp-sdk/dlq/dlq.go:296-324 | unknown id or missing handler: nothing changes; success: removed and counted; failure: recorded |
| `DeadLetter.Queue.Replay` | otaf-rapp-sdk/dlq/dlq.go:251-294 | expires, takes a snapshot of exactly the due entries oldest first, and handles a prefix of it that ends where the context does; files and books stay in step |
| `DeadLetter.ReplayHandlesEach` | otaf-rapp-sdk/dlq/dlq.go:271-292 | each handled entry is treated once, on its own: gone on success, updated on failure, gone when that was its last attempt |
| `DeadLetter.ReplayLeavesOthers` | otaf-rapp-sdk/dlq/dlq.go:271-292 | a replay leaves every entry it did not handle exactly as it was |
| `DeadLetter.ReplayConserves` | otaf-rapp-sdk/dlq/dlq.go:271-292 | a replay balances the books and counts exactly its successes as recovered |
| `DeadLetterRuns.LedgerHolds` | otaf-rapp-sdk/dlq/dlq.go:162-444 | in every interleaving of critical sections each message that came in has exactly one fate, is parked exactly when that is its fate, and the counters are the numbers of messages that met each fate (recovered up to removals that missed and credits still pending) |
| `DeadLetterRuns.LedgerBalances` | otaf-rapp-sdk/dlq/dlq.go:251-444 | loaded + accepted + missed removals = parked + recovered + pending credits + exhausted + expired + overflowed + discarded, in every reachable state |
| `DeadLetterRuns.SequentialIsUndisturbed` | otaf-rapp-sdk/dlq/dlq.go:251-324 | without overlap the call under way finds every entry of its snapshot still parked as it saw it, so no removal ever misses |
| `DeadLetterRuns.SequentialLedger` | otaf-rapp-sdk/dlq/dlq.go:251-444 | between non-overlapping calls the counters alone balance, and recovered counts exactly the recovered messages |
| `DeadLetterRuns.OverlapCountsTwice` | otaf-rapp-sdk/dlq/dlq.go:296-324 | two overlapping retries of one message count it as recovered twice, so the correction terms are needed |
| `DeadLetterRuns.AttemptsBounded` | otaf-rapp-sdk/dlq/dlq.go:326-347 | in every interleaving, for every message, accepted or loaded from disk: while parked it keeps its message and has the attempts it came with plus one per recorded failure; it is given up if and only if a failure has brought that sum to the limit |
| `DeadLetterRuns.FateIsFinal` | otaf-rapp-sdk/dlq/dlq.go:349-444 | a message recovered, given up, expired, overflowed or discarded stays so, however the run goes on |
| `DeadLetterEntries.EntryRemembers` | otaf-rapp-sdk/dlq/dlq.go:192-202 | in every interleaving a parked entry keeps the time of its message's first failure, however often it fails again, and gives the text of its last error as the reason |
| `DeadLetterEntries.ExpiresExactly` | otaf-rapp-sdk/dlq/dlq.go:413-422 | a parked message expires if and only if the queue looks (in a Park, a replay or an expiry) and it first failed longer ago than the limit, whatever has happened to it since |
| `DeadLetterEntries.NoneTooOld` | otaf-rapp-sdk/dlq/dlq.go:413-422 | after every such look no message is parked that first failed longer ago than the limit |
| `DeadLetterEntries.ReplayTakesTheDue` | otaf-rapp-sdk/dlq/dlq.go:251-270 | a replay takes parked messages, each once and in the order of their first failures, among them every one whose last setback is as long ago as jitter can make its delay; one that ignores the backoff takes all |
| `DeadLetterReplays.ReplaysBounded` | otaf-rapp-sdk/dlq/dlq.go:271-292 | with one replay at a time, and parking, discarding and expiry beside it, no message is handed out by replays so often that, with the attempts it was loaded with, it exceeds the limit |
| `DeadLetterReplays.BoundedForCertainExactly` | otaf-rapp-sdk/dlq/dlq.go:251-324 | every run with at most n calls at once bounds the replays of every message if and only if n <= 1 |
| `DeadLetterReplays.SequentialIsOneCall` | otaf-rapp-sdk/dlq/dlq.go:251-324 | runs without any overlap are among those with one call at a time |
| `DeadLetterReplays.WaitsFromSetback` | otaf-rapp-sdk/dlq/dlq.go:162-215 | in every interleaving a parked entry waits, from its last setback in the run (parking, or its last recorded failure), the base delay for its attempts, give or take jitter and truncation |
| `DeadLetterReplays.ReplaysAreSpaced` | otaf-rapp-sdk/dlq/dlq.go:251-292 | with one replay at a time, and parking, discarding and expiry beside it, whenever RetryDue has an accepted message with k failures in hand, its replay began at least the (k+1)-th base delay, less jitter and truncation, after the clock of its last failure (or of its parking); that delay is the capped exponential when the first delay is within the maximum; a message loaded from disk likewise from its first failure in the run on |
| `DeadLetterReplays.SpacedForCertainExactly` | otaf-rapp-sdk/dlq/dlq.go:251-324 | every run with at most n calls at once is so spaced if and only if n <= 1, for a first delay of which jitter leaves at least a nanosecond |
| `DeadLetterReplays.OverlapReplaysAtOnce` | otaf-rapp-sdk/dlq/dlq.go:251-292 | a run in which two replays at once hand the same message out again in the very moment of its last failure |
| `EndToEnd.RunKeepsSeam` | otaf-rapp-sdk/dlq/dlq.go:162-178 | in every interleaving of pipeline and queue: exactly the failed messages (and those about to be counted so) were refused or parked, each parked one under an id of its own, and the queue's accepted and rejected counters count them |
| `EndToEnd.ChainDecidesVerdict` | otaf-rapp-sdk/dlq/dlq.go:162-188 | over every run, a message its handler failed was refused if and only if the chain of that error says retrying cannot help, and was parked otherwise |
| `EndToEnd.EveryFailureHasItsFate` | otaf-rapp-sdk/dlq/dlq.go:162-178 | every message counted as failed was refused or parked; a parked one is still parked with the very message that was sent, or has exactly one recorded fate, shared with no other message |
| `EndToEnd.NothingVanishes` | otaf-rapp-sdk/dlq/dlq.go:162-215 | the books of the whole path: everything submitted is waiting, sent, dropped or abandoned, and everything sent or loaded is queued, in flight, processed, rejected, parked, recovered, given up, expired, overflowed or discarded, in every reachable state |
| `EndToEnd.PipelineHalf` | otaf-rapp-sdk/ingest/ingest.go:186-275 | every run of the wrapped pipeline is, on the pipeline's side, a run of the plain pipeline |
| `EndToEnd.QueueHalf` | otaf-rapp-sdk/dlq/dlq.go:162-324 | and on the queue's side a run of the queue |
| `Buckets.Shape.Start` | otaf-rapp-sdk/analytics/buckets.go:105-105 | a slot contains its timestamp and starts at a multiple of the width from the zero time |
| `Buckets.AliasExactly` | otaf-rapp-sdk/analytics/buckets.go:115-122 | two slots less than a window apart share a place in the ring if and only if they adjoin across the epoch and the epoch is not a slot boundary |
| `Buckets.Ring.Add` | otaf-rapp-sdk/analytics/buckets.go:58-65 | adding an event appends it to the log the ring stands for, overwriting the place when it belongs to another slot |
| `Buckets.Ring.SlotFor` | otaf-rapp-sdk/analytics/buckets.go:102-113 | the place of a timestamp's slot, reset only if it held another slot; every other place untouched |
| `Buckets.Ring.Window` | otaf-rapp-sdk/analytics/buckets.go:70-91 | one bucket per slot of the window, oldest first, with what the ring still shows for it |
| `Buckets.Ring.Total` | otaf-rapp-sdk/analytics/buckets.go:93-100 | the sum of the field over those buckets |
| `Buckets.ShownIsSumSinceEviction` | otaf-rapp-sdk/analytics/buckets.go:59-91 | for every log, in any order: a slot shows exactly the per-field sums of its events since another slot last took its place |
| `Buckets.CountsExactly` | otaf-rapp-sdk/analytics/buckets.go:59-91 | for positive amounts a slot is exact if and only if none of its events came before one that took its place |
| `Buckets.LateEventWipes` | otaf-rapp-sdk/analytics/buckets.go:102-113 | against the comment that a slot is reset only if it holds an older period: after any log, an event exactly `count` slots older than a slot wipes it |
| `Buckets.NewestCanBeLost` | otaf-rapp-sdk/analytics/buckets.go:102-113 | for any such pair of times the newest slot shows its event, and nothing once the older event has come |
| `Buckets.WindowRefinesLog` | otaf-rapp-sdk/analytics/buckets.go:70-91 | if every event fell within the last `count` slots of those before it (and none in a slot straddling the epoch), every slot of a window not before the newest event shows exactly its per-field sums |
| `Buckets.TotalRefinesLog` | otaf-rapp-sdk/analytics/buckets.go:93-100 | and Total is the plain sum over all events of the last `count` slots |
| `Stats.Slope` | otaf-rapp-sdk/analytics/stats.go:131-159 | the accumulator loops compute the least-squares formula over the values that are not NaN, zero for fewer than two; the result is positive when the numbers of the input never fall and differ somewhere, negative when they never rise and differ |
| `Stats.RisingSeriesIsPositive` | otaf-rapp-sdk/analytics/stats.go:131-159 | on the input itself: if its numbers never fall in order of index and are not all equal, the slope is positive, wherever there are NaNs |
| `Stats.FallingSeriesIsNegative` | otaf-rapp-sdk/analytics/stats.go:131-159 | and negative if they never rise and are not all equal |
| `Stats.LinearSeriesHasItsGradient` | otaf-rapp-sdk/analytics/stats.go:131-159 | an input a + b i without NaNs has slope exactly b |
| `Stats.TooFewHaveNone` | otaf-rapp-sdk/analytics/stats.go:140-143 | an input with at most one number has slope zero |
| `Stats.CleanKeepsOrder` | otaf-rapp-sdk/analytics/stats.go:133-140 | dropping the NaNs keeps the numbers in their order |
| `Stats.DenominatorIs` | otaf-rapp-sdk/analytics/stats.go:154-154 | the denominator is n^2 (n^2 - 1) / 12 |
| `Stats.DenominatorPositive` | otaf-rapp-sdk/analytics/stats.go:154-157 | so it is positive from two values on and the guard against zero never fires |
| `Stats.NumeratorIsPairs` | otaf-rapp-sdk/analytics/stats.go:158-158 | the numerator is the sum over i < j of (j - i)(v_j - v_i) |
| `Stats.RisingIsPositive` | otaf-rapp-sdk/analytics/stats.go:131-132 | the slope of a never falling, not constant series is positive |
| `Stats.FallingIsNegative` | otaf-rapp-sdk/analytics/stats.go:131-132 | the slope of a never rising, not constant series is negative |
| `Stats.LineHasItsGradient` | otaf-rapp-sdk/analytics/stats.go:131-132 | an affine series a + b i has slope exactly b |
| `Stats.SlopeIsLeastSquares` | otaf-rapp-sdk/analytics/stats.go:131-132 | no line has a smaller squared error over the series than the one with this slope through the mean point |
| `Stats.Percentile` | otaf-rapp-sdk/analytics/stats.go:81-109 | interpolates in the sorted values that are not NaN, and does not modify the input array |
| `Stats.PercentileInRange` | otaf-rapp-sdk/analytics/stats.go:95-108 | lies between the smallest and the largest value that is not NaN, which it meets at p <= 0 and p >= 1 |
| `Stats.PercentileMonotone` | otaf-rapp-sdk/analytics/stats.go:102-108 | grows with p |
| `Stats.PercentileIsOrderStatistic` | otaf-rapp-sdk/analytics/stats.go:102-107 | at k/(n-1) it is one of the values, with at most k values below it and more than k not above it |
| `Stats.PercentileInterpolates` | otaf-rapp-sdk/analytics/stats.go:102-108 | between two neighbouring order statistics it goes in a straight line |
| `Stats.PercentileIgnoresOrderAndNaNs` | otaf-rapp-sdk/analytics/stats.go:83-93 | depends only on how often each number occurs: not on the order, nor on any NaN |
| `Cooldown.Guard.Allow` | otaf-rapp-sdk/analytics/cooldown.go:46-53 | allowed if and only if nothing remains |
| `Cooldown.Guard.Take` | otaf-rapp-sdk/analytics/cooldown.go:55-66 | claims the key if and only if nothing remains, and changes nothing otherwise |
| `Cooldown.Guard.Remaining` | otaf-rapp-sdk/analytics/cooldown.go:75-91 | the time until the key is free, zero for an unknown key or no period |
| `Cooldown.RemainingIsExact` | otaf-rapp-sdk/analytics/cooldown.go:75-91 | the key is free from the time that remains on, and at no time before |
| `Cooldown.Guard.Evict` | otaf-rapp-sdk/analytics/cooldown.go:100-114 | drops exactly the keys idle for more than two periods, and counts them |
| `Cooldown.TakesAreSpaced` | otaf-rapp-sdk/analytics/cooldown.go:55-73 | over a whole run with a clock that does not run backwards, a successful Take is at least a period after every earlier Take or Mark of the key not cleared since, evictions included |
| `Cooldown.TakesExactly` | otaf-rapp-sdk/analytics/cooldown.go:55-73 | in such a run a Take succeeds if and only if every earlier Take or Mark of the key not cleared since is at least a period ago |
| `Cooldown.EvictionIsInvisible` | otaf-rapp-sdk/analytics/cooldown.go:100-114 | removing every eviction from such a run changes no answer of Allow, Take or Remaining |
| `Cooldown.EvictionVisibleExactly` | otaf-rapp-sdk/analytics/cooldown.go:100-114 | after any run, on any clock, an eviction is invisible to a later query of a key left alone since if and only if the key was kept or is free when asked |
| `Registry.History.Append` | otaf-rapp-sdk/analytics/history.go:34-48 | accepts exactly the samples newer than the last and keeps the newest `limit` |
| `Registry.Registry.Observe` | otaf-rapp-sdk/analytics/registry.go:122-171 | updates exactly the one entity, which is created if unknown, by one report; a report keeps its own time and gets the clock only if it has none; it is accepted if and only if that is later than the last of the window; an accepted one is judged by the classifier on the new window; previous state and change are reported |
| `Registry.Registry.Evict` | otaf-rapp-sdk/analytics/registry.go:299-319 | drops exactly the entities unheard for longer than the period, lists them in id order, and ignores periods that are not positive |
| `Registry.Registry.Forget` | otaf-rapp-sdk/analytics/registry.go:321-329 | drops exactly the one entity and says whether it was there |
| `Registry.EntityIsItsOwnHistory` | otaf-rapp-sdk/analytics/registry.go:122-171 | after any run, an entity's window is the newest `limit` running maxima of its own reports since it was last created, its verdict the classifier's on that window, its times those of the last accepted report |
| `Registry.EntityKeepsReportedTimes` | otaf-rapp-sdk/analytics/registry.go:122-171 | when every report carries a time, the same by the times carried, whatever the clock |
| `Registry.ClockDoesNotMatter` | otaf-rapp-sdk/analytics/registry.go:128-130 | two runs of timed reports that differ only in the clock leave the same table |
| `Registry.EntitiesAreIndependent` | otaf-rapp-sdk/analytics/registry.go:60-70 | what is known of an entity depends only on the operations that concern it |
| `Registry.WindowsRise` | otaf-rapp-sdk/analytics/history.go:34-48 | every window is non-empty, within the limit and strictly increasing in time |
| `Registry.EvictionDropsTheUnheard` | otaf-rapp-sdk/analytics/registry.go:299-319 | over any run, an eviction drops an entity if and only if its last accepted report arrived longer ago than the period |
| `Strings.SortedKeys` | otaf-rapp-sdk/analytics/registry.go:338-346 | the keys of a map in ascending order, each once |
| `Strings.SortedUnique` | otaf-rapp-sdk/influx/influx.go:325-332 | there is only one such list |
| `Strings.BeforeExactly` | otaf-rapp-sdk/influx/influx.go:325-332 | the order is lexicographic: a proper start first, else the smaller character at the first difference |
| `Lockout.Guard.NoteFailure` | otaf-rapp-sdk/auth/auth.go:348-364 | one more failure held against the address, or a lock for a full window at the fifth, after making room for a new address |
| `Lockout.Guard.EvictPeers` | otaf-rapp-sdk/auth/auth.go:366-385 | nothing below the limit; else exactly the stale peers go, and if that is not enough, others until there is room for one; both loops end |
| `Lockout.StaleGoFirst` | otaf-rapp-sdk/auth/auth.go:366-385 | with a full table and some peer out of its lock and silent for longer than a window, a new address makes exactly such peers go |
| `Lockout.Guard.Login` | otaf-rapp-sdk/auth/auth.go:252-313 | a locked address is turned away, wrong credentials are noted, right ones clear the address; the status says which |
| `Lockout.TableBounded` | otaf-rapp-sdk/auth/auth.go:366-385 | the peer table never exceeds its limit in any run |
| `Lockout.RunIsGrouped` | otaf-rapp-sdk/auth/auth.go:341-364 | evaluated failures come in groups of five a full window apart, and the table holds the size of the unfinished group, across lockouts and stale evictions |
| `Lockout.FailuresAreRationed` | otaf-rapp-sdk/auth/auth.go:341-364 | no window of a minute sees more than five evaluated failures of an address that neither signs in nor is dropped while fresh |
| `Lockout.RationedForCertainExactly` | otaf-rapp-sdk/auth/auth.go:366-385 | every run with wrong credentials from at most n addresses rations every address from which right ones never come, if and only if n is at most the 4096 the table holds |
| `Lockout.FullTableMayForget` | otaf-rapp-sdk/auth/auth.go:376-384 | with a full table of fresh peers a failure from a new address may forget any other address and the failures held against it |
| `Lockout.ForgottenPeerExceedsRation` | otaf-rapp-sdk/auth/auth.go:376-384 | a whole run, from the empty table and with 4097 addresses, in which an address that never offers right credentials has six failures evaluated in one window, because the full table forgot it |
| `LockoutOverlap.OverlapsAreRationed` | otaf-rapp-sdk/auth/auth.go:252-364 | for logins that overlap: with at most k logins of an address between check and note at once, each noted within d of its arrival, and room for every offender, no window d shorter than the lock sees more than k + 4 failures of an address from which right credentials never come |
| `LockoutOverlap.BoundIsExact` | otaf-rapp-sdk/auth/auth.go:252-364 | in every run so bounded, at most b failures fall in such a window if and only if b >= k + 4 |
| `LockoutOverlap.WindowIsExact` | otaf-rapp-sdk/auth/auth.go:252-364 | with two logins at once or more, every window of a given length sees at most k + 4 failures if and only if it is no longer than the lock less d: a slow login carries the clock of its arrival, and the lock it sets ends early |
| `LockoutOverlap.OneByOne` | otaf-rapp-sdk/auth/auth.go:252-364 | logins one after the other are the case k = 1, d = 0, with the same failures |
| `Producer.IntervalOf` | otaf-rapp-sdk/r1/producer.go:202-217 | a job that asks for none gets the producer's own interval, one that asks for less than five seconds gets five, any other what it asks for |
| `Producer.Table.HandleJobStart` | otaf-rapp-sdk/r1/producer.go:161-176 | starts or restarts exactly the named job, due at once; refuses one without id or target |
| `Producer.Table.HandleJobStop` | otaf-rapp-sdk/r1/producer.go:189-196 | drops exactly the named job |
| `Producer.Table.Due` | otaf-rapp-sdk/r1/producer.go:236-249 | returns, each once, exactly the jobs whose time has come and postpones exactly those by their interval |
| `Producer.CadenceKept` | otaf-rapp-sdk/r1/producer.go:219-249 | successive deliveries of a job left alone are at least its interval apart and less than its interval plus the longest gap between sweeps |
| `Producer.DeliveriesRationed` | otaf-rapp-sdk/r1/producer.go:219-249 | any closed window of a given length sees at most length / interval + 1 deliveries of such a job |
| `Producer.IntervalsAtLeastFloor` | otaf-rapp-sdk/r1/producer.go:202-217 | in every reachable table every job's interval is at least the floor |
| `LineProtocol.Encode` | otaf-rapp-sdk/influx/influx.go:257-298 | prints the head with the tags that have a value in key order, then the printable fields and the time, or nothing without a printable field |
| `LineProtocol.ClosedTokenReads` | otaf-rapp-sdk/influx/influx.go:321-323 | an escaped name that neither ends in a backslash nor contains a newline reads back up to the next separator |
| `LineProtocol.OpenTokenMisreads` | otaf-rapp-sdk/influx/influx.go:321-323 | any other does not |
| `LineProtocol.LineReadsExactly` | otaf-rapp-sdk/influx/influx.go:257-298 | a printed line reads back as the measurement, exactly the tags with a value in key order, and the rest, if and only if none of these names and values ends in a backslash or contains a newline |
| `LineFields.LineReadsBackExactly` | otaf-rapp-sdk/influx/influx.go:257-298 | a whole line reads back as the measurement, the tags with a value and the printable fields, both in key order, and the time, if and only if no measurement, tag name, tag value or field name in it ends in a backslash or contains a newline |
| `LineFields.ShownMembers` | otaf-rapp-sdk/influx/influx.go:272-287 | the fields read back are every printable one under its name, and no other |
| `LineProtocol.HeadsDiffer` | otaf-rapp-sdk/influx/influx.go:257-270 | under that condition equal heads have the same measurement and the same tags |
| `LineProtocol.BackslashesCollide` | otaf-rapp-sdk/influx/influx.go:321-323 | two different sets of tags, one with trailing backslashes, that print the same head, which is well formed and reads back as the other |
| `Counters.CounterNames` | otaf-rapp-sdk/pm/xml.go:173-198 | the names by position, or the words of the list |
| `Counters.CountersOf` | otaf-rapp-sdk/pm/xml.go:200-222 | both result forms fill the table cell by cell, skipping positions without a name |
| `Counters.VesCounters` | otaf-rapp-sdk/pm/ves.go:167-179 | the VES loop fills the same kind of table |
| `Counters.NamesCovered` | otaf-rapp-sdk/pm/xml.go:175-195 | types with positions in any order, or left out where they agree with document order, give the names in position order when one of them carries the highest position |
| `Counters.FieldsOfText` | otaf-rapp-sdk/pm/xml.go:197-197 | splitting at white space gives back the words, however they were spaced |
| `Counters.TrimsAround` | otaf-rapp-sdk/pm/xml.go:186-186 | trimming takes off exactly the white space around a text |
| `Counters.FillHolds` | otaf-rapp-sdk/pm/xml.go:200-222 | cells that cover the positions give exactly the table |
| `Counters.EncodingsAgree` | otaf-rapp-sdk/pm/xml.go:175-222 | positional XML and VES results, with positions in any order or left out in document order, and white-space separated XML decode one table to one and the same map, which is that table (section 4.1 of 3GPP TS 32.435 for the XML forms) |
| `Counters.AllGiven` | otaf-rapp-sdk/pm/xml.go:200-211 | elements that all carry their positions, in any order, are such elements |
| `Counters.AllLeftOut` | otaf-rapp-sdk/pm/xml.go:204-208 | and so are elements in document order that carry none |
| `Counters.NumericIdsStandIn` | otaf-rapp-sdk/pm/ves.go:163-203 | a VES event without type names fills the table under its numeric ids |
| `Counters.VesValueReads` | otaf-rapp-sdk/pm/ves.go:205-213 | a VES value reads the same as text, as a bare number and as a quoted one |
| `Counters.LastWins` | otaf-rapp-sdk/pm/xml.go:184-195 | each place of the table holds the name of the last type that names it |
| `Counters.FallsBackExactly` | otaf-rapp-sdk/pm/xml.go:184-195 | for every list of types: a type that omits its position is named at its place in document order if and only if that place is below the highest position given and the last type to name it has the same name |
| `Counters.InOrderFallsBackExactly` | otaf-rapp-sdk/pm/xml.go:184-195 | when the positions given agree with document order, the whole list falls back to it if and only if the last type carries its position; with all omitted there are no names at all |
| `Counters.LastTypeDoesNotDecide` | otaf-rapp-sdk/pm/xml.go:184-195 | out of document order the last type decides nothing: two lists, one that falls back without and one that does not with its position |
| `Counters.QualifyIdempotent` | otaf-rapp-sdk/pm/xml.go:231-248 | qualifying a name twice is qualifying it once |
| `Counters.QualifiedIs` | otaf-rapp-sdk/pm/xml.go:231-248 | a qualified name ends with the name, contains the element unless it begins with ManagedElement=, and is the name unchanged if and only if that was absolute already |

## Left out

- HTTP, Kafka, JSON, XML and YAML decoding, bcrypt, tokens, cookies and sessions, logging, metrics, health, templates, packaging and configuration: input and output, or library behaviour.
- Floating-point rounding, infinities, int64 overflow and timestamps outside the representable range; a `Backoff` whose multiplier is NaN.
- The directory under overlapping calls: a file is written after the lock is released, so memory and directory are proved to agree only between completed, non-overlapping methods (`DeadLetter.Queue`); I/O errors, and files that are not `.json`.
- Entries, peers and jobs are held by value in their maps: the source's pointers to them do not leave the lock, so aliasing between them is not modelled. `History` objects are modelled as references.
- `Queue.Entries`, `Len`, `Stats` and `Start`; `DoValue`; `Registry` snapshots, staleness and counts; `With` and `Each`, which let a caller change an entity directly; `Mean`, `StdDev`, `Min`, `Max`, `Last`, `ChangePct`, `Clamp01` and the journal: true but easy.
- The texts of numbers and quoted strings in a printed line, and the numeric ids of VES types, are given as strings: a bare text holds nothing that ends a field, a quoted one ends at its first unescaped quote. The joining of lines into a batch.
- Text that `Error()` composes from wrapped errors.

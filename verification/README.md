# Freenet node core: a verified model

This project models the parts of the Freenet node whose behaviour is hardest to see from
the code: the outlier detector of contract governance, the shutdown protocol of the
deadlock detector, transaction identifiers and the simulation clock, seeded randomness
across threads, the start-up configuration with its write-back, gateway lists, the ranking
of advertised hosts, and the streaming timeout. Every file is plain Dafny;
`dafny verify dfyconfig.toml` checks all of it.

Code that changes state in the source is imperative here too: `GatewayList`, `ConfigArgs`,
`DataDir`, `SimulationTime`, `ThreadCells`, `ReportSource` and `DetectorGuard` are classes,
sorts work in place on arrays, and loops are loops. Each of their methods is proved to
compute a function of the old state, and the theorems are about those functions. Protocols
(detector threads, threads drawing random numbers, sequences of node starts) are state
machines, and their theorems hold for every interleaving or every sequence.

| file | subject |
|---|---|
| `StableSort.dfy` | stable sorting in place, its uniqueness, counting and filtering |
| `Governance.dfy`, `OutlierTheorems.dfy` | the outlier detector and what it guarantees |
| `DeadlockDetector.dfy`, `DetectorProgress.dfy` | detector threads, guards, and other callers of `check_deadlock` |
| `Bits.dfy`, `Transactions.dfy`, `TransactionTheorems.dfy` | identifiers, ordering, age and cutoffs |
| `GlobalRng.dfy` | thread-local seeds over a process-wide index counter |
| `DeterministicIds.dfy` | identifiers drawn from seed and simulated clock, next to other threads |
| `Gateways.dfy` | first-wins deduplication and the choice of the gateway list |
| `Startup.dfy`, `StartupTheorems.dfy` | one start of the node, and every sequence of starts |
| `Reals.dfy`, `Wrappers.dfy` | small shared definitions |
| `HostRanking.dfy` | the closest advertised hosts |
| `StreamingTimeout.dfy` | the timeout of a streaming attempt |

## Where the code and its documentation differ

The model follows the code. Each difference is stated by a lemma.

- A detector can call `check_deadlock` once after the shutdown flag is stored, although a
  comment (`deadlock_detection.rs:104-109`) rules that out. It happens exactly when the
  thread had already passed its last test of the flag (`CheckAfterStoreExactly`,
  `StoredIsNotEnough`). After `drop` returns, no check happens.
- Thread indices are documented as unique (`config.rs:3142-3145`). Seeding pins a thread to
  index 0, so two threads can share it (`SharedIndexExactly`, `IndicesCollide`).
- Collapse of the spread is documented as all samples being identical
  (`governance.rs:43-45`). A strict majority of equal samples is enough
  (`MadZeroIffMajority`, `CollapsesExactly`, `CollapseWithoutEquality`).
- The cutoff identifier is described as replacing the timestamp bits (`message.rs:149`).
  Its mask clears 16 random bits as well (`CutoffFields`). The 64-bit product of time to
  live and multiplier can wrap around in a build without overflow checks
  (`WrappedMultiplierCollectsTheYoung`). A multiplier is safe whatever the random bytes
  exactly when the true product fits below the clock (`SafeMultiplierExactly`).
- Gateways are documented as saved only when fetched from the remote index
  (`config.rs:1110-1112`). They are saved at every start that does not skip the network, so
  a start in local mode empties the saved list (`LocalStartErasesSavedGateways`).
- A failed start never changes `config.toml`, but it can replace `gateways.toml`, because a
  fetched index is saved before later checks (`FailedStartChanges`).
- The exemption of gateways without a public port (`config.rs:805-824`) covers no case:
  validation has already rejected such a gateway (`GatewayExemptionIsIdle`).
- An unchanged restart is documented to write nothing, so that hand edits survive
  (`config.rs:1117-1121`). The comparison is on the text, and blocked addresses are a hash
  set: two or more of them can come out in another order, and any text that the serialiser
  would not write is replaced (`BareStartRewritesExactly`, `BlockedOrderRewrites`).
- The ranking of hosts is documented as the same for every order of its input
  (`operations.rs:452-453`). Two different peers under one address break that
  (`OrderIndependentExactly`, `SharedAddressDependsOnOrder`).
- An explicit hosting budget is documented to survive restarts (`config.rs:1215-1219`). It
  is forgotten when it equals the derived budget at one start and not at the next, as
  another comment admits (`ExplicitHostingSurvivesExactly`, `ExplicitHostingForgotten`).

## Model

| member | source | states |
|---|---|---|
| StableSort.SortInPlace | crates/core/src/governance.rs:201-207 | the array afterwards is the stable sort of what it held |
| StableSort.SortContents | crates/core/src/governance.rs:201-207 | sorting neither loses nor invents elements |
| StableSort.SortOrdered | crates/core/src/governance.rs:201-207 | the result is ordered, for every total preorder |
| StableSort.SortStable | crates/core/src/governance.rs:201-207 | elements that compare equal keep their order |
| StableSort.StableSortUnique | crates/core/src/governance.rs:201-207 | any ordered, stable rearrangement is this result, so the library's algorithm does not matter |
| Governance.DetectOutliers | crates/core/src/governance.rs:162-281 | the imperative detector, with its in-place sorts and loops, computes `Detect` |
| Governance.GatherPairs | crates/core/src/governance.rs:180-191 | keeps exactly the entries with a finite ratio, in order |
| Governance.MeasureSpread | crates/core/src/governance.rs:231-235 | the deviations sorted in place have the MAD in the middle |
| Governance.CollectAbove | crates/core/src/governance.rs:262-269 | walks all pairs, trimmed ones included, and keeps the keys above the threshold |
| Governance.TrimmedLen | crates/core/src/governance.rs:209-220 | for a fraction in [0, 1) the trimmed count is the largest integer at most n times the fraction; nothing is trimmed from 0 down, everything from 1 up |
| Governance.MedianOfSorted | crates/core/src/governance.rs:285-293 | lies between the two middle elements |
| OutlierTheorems.Statistics | crates/core/src/governance.rs:193-281 | the report is decided by the trimmed ratios, or says why there is none |
| OutlierTheorems.FlaggedExactly | crates/core/src/governance.rs:262-269 | a key is flagged if and only if the pass ran and its own ratio is above the threshold |
| OutlierTheorems.ThresholdExactly | crates/core/src/governance.rs:252-260 | in a pass that ran, a ratio is above the threshold if and only if it is above the ceiling or more than 1.4826 k MAD above the median; the ceiling binds if and only if it is the lower of the two |
| OutlierTheorems.FlaggedByDistance | crates/core/src/governance.rs:252-269 | a key is flagged if and only if the pass ran and its own ratio is that far out |
| OutlierTheorems.Breakdown | crates/core/src/governance.rs:201-269 | fewer than half dishonest kept samples cannot move the median out of the honest range nor the threshold above hi + 1.4826 k (hi - lo); everything above that is flagged |
| OutlierTheorems.BreakdownIsSharp | crates/core/src/governance.rs:201-235 | whatever the configuration trims, with exactly half of an even number of kept samples dishonest the median can be put above any target |
| OutlierTheorems.MedianWithin | crates/core/src/governance.rs:285-293 | while fewer than half of the values stray from a range, the median stays in it |
| OutlierTheorems.MadWithin | crates/core/src/governance.rs:231-235 | under the same condition the MAD is at most the width of the range |
| OutlierTheorems.OutlierCannotRaiseItsBar | crates/core/src/governance.rs:209-269 | larger ratios of trimmed keys change no statistic, threshold or skip reason; flagged keys stay flagged; other keys keep their verdict |
| OutlierTheorems.IterationOrderIrrelevant | crates/core/src/governance.rs:180-281 | any order of the map's entries gives the same statistics and the same flagged set |
| OutlierTheorems.ShiftEquivariant | crates/core/src/governance.rs:180-281 | shifting all ratios and the ceiling shifts median and threshold and changes nothing else |
| OutlierTheorems.MadZeroIffMajority | crates/core/src/governance.rs:228-250 | the MAD is zero if and only if a strict majority equals the median |
| OutlierTheorems.MadBelowExactly | crates/core/src/governance.rs:228-235 | the MAD is below a bound e if and only if at least half of the ratios are less than x from the median and more than half less than y, for some x + y = 2e |
| OutlierTheorems.CollapsesExactly | crates/core/src/governance.rs:237-250 | the pass is skipped as collapsed if and only if that holds of the kept ratios with e the machine epsilon |
| OutlierTheorems.MajorityCollapses | crates/core/src/governance.rs:237-250 | a strict majority within epsilon collapses the pass, one within twice epsilon is necessary, and for an odd kept count the first is exact |
| OutlierTheorems.CollapseWithoutEquality | crates/core/src/governance.rs:43-45 | a family of samples, of two different kept ratios, that collapse |
| OutlierTheorems.HalfNeverFlagged | crates/core/src/governance.rs:252-269 | with a non-binding ceiling at least half of the trimmed sample is at or below the threshold |
| DeadlockDetector.ReportSource.CheckDeadlock | crates/core/src/deadlock_detection.rs:134-137 | returns all unreported cycles and removes them |
| DeadlockDetector.DetectorGuard.constructor | crates/core/src/deadlock_detection.rs:97-103 | a new detector: flag clear, thread at the start of its loop |
| DeadlockDetector.DetectorGuard.StoreShutdown | crates/core/src/deadlock_detection.rs:59-61 | first half of `drop`: the flag is stored, the thread goes on |
| DeadlockDetector.DetectorGuard.JoinThread | crates/core/src/deadlock_detection.rs:61-76 | second half of `drop`: the handle is taken, possible only once the thread ended |
| DeadlockDetector.DetectorGuard.Advance | crates/core/src/deadlock_detection.rs:115-156 | one step of the thread on the shared state equals one step of the state machine |
| DeadlockDetector.PollStep | crates/core/src/deadlock_detection.rs:110 | the smaller of 10 ms and the interval |
| DeadlockDetector.SleepStep | crates/core/src/deadlock_detection.rs:122 | at most a poll step, never past the interval, and shorter only to end exactly at it |
| DeadlockDetector.WaitInterval | crates/core/src/deadlock_detection.rs:115-126 | the wait stops at the first raised flag, else sleeps exactly the interval in steps of at most 10 ms |
| DeadlockDetector.DetectorsSafe | crates/core/src/deadlock_detection.rs:59-164 | the invariant of every detector in every interleaving |
| DeadlockDetector.DropIsFinal | crates/core/src/deadlock_detection.rs:59-76 | at most one check after the store, none after `drop` returned, and then the thread has ended |
| DeadlockDetector.CheckAfterStoreExactly | crates/core/src/deadlock_detection.rs:104-137 | that one check happens if and only if the thread was past its last test when the flag was stored |
| DeadlockDetector.StoredIsNotEnough | crates/core/src/deadlock_detection.rs:104-137 | a run in which a detector consumes a cycle formed after the store |
| DeadlockDetector.ExitsSoon | crates/core/src/deadlock_detection.rs:115-156 | after the store a thread ends within four of its own steps, whatever else runs |
| DeadlockDetector.JoinDoesNotBlock | crates/core/src/deadlock_detection.rs:59-76 | while `drop` waits, in every continuation the thread takes at most four more steps, and the join goes through if and only if the thread has no step left |
| DeadlockDetector.JoinIsReached | crates/core/src/deadlock_detection.rs:59-76 | from every state with the flag stored at most four steps of the thread lead to the join |
| DeadlockDetector.EachCycleReportedOnce | crates/core/src/deadlock_detection.rs:134-151 | in every run formed cycles are the unreported ones plus the reported ones, and no cycle is reported twice |
| DetectorProgress.ChecksAreSpaced | crates/core/src/deadlock_detection.rs:115-137 | in every run a detector has slept its interval before each of its checks, and never sleeps more than the interval without one |
| DetectorProgress.ChecksSoon | crates/core/src/deadlock_detection.rs:115-137 | an unsignalled detector checks within a bounded number of its own steps, whatever else runs |
| DetectorProgress.PanicsExactlyOnFinds | crates/core/src/deadlock_detection.rs:139-156 | a detector told to panic stops at its first nonempty batch, one not told to never panics, and nothing but a find or its guard ends a detector |
| DeadlockDetector.NothingStolen | crates/core/src/deadlock_detection.rs:40-53 | after one guard is dropped, next to any live or new detectors, batches only grow in number and none of the new ones went to that detector |
| DeadlockDetector.NextCheckTakesIt | crates/core/src/deadlock_detection.rs:134-137 | an unreported cycle waits for the next check, whoever makes it, and is in that batch |
| DeadlockDetector.DroppedDetectorStealsNothing | crates/core/src/deadlock_detection.rs:462-485 | a cycle formed after a drop is in the first batch handed out from then on and in no other, that batch did not go to the dropped detector, and until then any caller gets it |
| Transactions.UlidTimestamp | crates/core/src/config.rs:3384-3417 | an assembled identifier fits 128 bits and carries the low 48 bits of the clock, whatever the random bytes |
| Transactions.WithTypeValue | crates/core/src/message.rs:158-170 | stamping the type replaces the lowest byte and nothing else |
| Transactions.TypeRoundTrip | crates/core/src/message.rs:72-77 | the type decodes to the one it was created with, without the panic |
| Transactions.CutoffFields | crates/core/src/message.rs:143-156 | the cutoff is the shifted instant above the low 64 bits of the identifier |
| Transactions.SimulationTime.SetTimeMs | crates/core/src/config.rs:3319-3322 | sets the base and restarts the counter |
| Transactions.SimulationTime.ClearTime | crates/core/src/config.rs:3325-3328 | clears both |
| Transactions.SimulationTime.CurrentTimeMs | crates/core/src/config.rs:3334-3351 | returns the reading and advances the simulated clock by one |
| Transactions.SimulationTime.ReadTimeMs | crates/core/src/config.rs:3357-3370 | returns the same reading without advancing |
| Transactions.SimulationTime.NewTransaction | crates/core/src/message.rs:48-60 | stamps the identifier at the reading with type and parent, and ticks once |
| Transactions.SimulationTime.TtlTransaction | crates/core/src/message.rs:143-156 | builds the cutoff at the reading, and ticks once |
| TransactionTheorems.EarlierOrdersFirst | crates/core/src/message.rs:200-204 | an earlier timestamp orders first whatever the bits below it |
| TransactionTheorems.DecodesExactly | crates/core/src/message.rs:72-77 | the type is read from the lowest byte, codes 0 to 4 in order, and decoding fails if and only if the byte is 5 or more |
| TransactionTheorems.UlidBytes | crates/core/src/config.rs:3395-3409 | which random byte each byte of a deterministic identifier is, with byte 9 laid over byte 2 |
| TransactionTheorems.BuiltFields | crates/core/src/message.rs:48-170 | timestamp, type, parent and kept low bits read back from a transaction built from any 128-bit identifier, a production one included |
| TransactionTheorems.MadeFields | crates/core/src/config.rs:3384-3417 | the same for identifiers assembled in deterministic mode, whose timestamp is the low 48 bits of the clock |
| TransactionTheorems.SimulationRun | crates/core/src/config.rs:3319-3417 | in every simulated run below 2^48 ms timestamps are base plus index, identifiers are distinct and strictly increasing, types decode, the age is the number of identifiers generated since, and a transaction is timed out if and only if those are 60,000 or more |
| TransactionTheorems.SystemClockAge | crates/core/src/message.rs:79-129 | without a simulated clock the age is the system time passed since the stamp, none if the clock went back, and the timeout comes exactly at 60 s |
| TransactionTheorems.ConsecutiveOrder | crates/core/src/config.rs:3384-3417 | consecutive identifiers order by generation if and only if the 48-bit field does not roll over |
| TransactionTheorems.CutoffTakesOnlyTheOldExactly | crates/core/src/message.rs:143-156 | for a cutoff built from any identifier, everything below it has lived the scaled time to live if and only if that time fits below the identifier's timestamp, or the instant is 0 and the kept bits are all 0 |
| TransactionTheorems.SafeMultiplierExactly | crates/core/src/message.rs:143-156 | a multiplier has that property for every identifier stamped with a given time if and only if the true product fits below that time |
| TransactionTheorems.SafeDeterministicMultiplierExactly | crates/core/src/config.rs:3384-3417 | the same when the identifiers range over those of deterministic mode only |
| TransactionTheorems.DeterministicCutoff | crates/core/src/message.rs:143-156 | a cutoff made in deterministic mode is the cutoff of the assembled identifier |
| TransactionTheorems.CutoffOrder | crates/core/src/message.rs:143-156 | which transactions order below a cutoff built from any identifier: the older ones, and of the exactly as old ones those with smaller low bits |
| TransactionTheorems.CutoffOnlyTakesTheOld | crates/core/src/message.rs:79-81 | whatever orders below a cutoff has lived the scaled time to live at any later reading |
| TransactionTheorems.CutoffTakesAllTheOld | crates/core/src/message.rs:143-156 | whatever was created strictly before the cutoff instant orders below it |
| TransactionTheorems.CutoffSaturates | crates/core/src/message.rs:147-148 | before a full scaled time to live has passed only timestamp 0 can order below |
| TransactionTheorems.WrappedMultiplierCollectsTheYoung | crates/core/src/message.rs:143-148 | with multiplier 2^59 the product wraps and transactions of any age order below |
| GlobalRng.ThreadCells.SetThreadSeed | crates/core/src/config.rs:3123-3131 | seeds the thread, drops its generator and pins its index |
| GlobalRng.ThreadCells.Clear | crates/core/src/config.rs:3134-3140 | forgets seed, generator and index |
| GlobalRng.ThreadCells.GetIndex | crates/core/src/config.rs:3142-3155 | keeps the thread's index or takes the next one of the process |
| GlobalRng.ThreadCells.Answer | crates/core/src/config.rs:3204-3227 | answers from the seeded generator, created on first use, or from the system |
| GlobalRng.Reachable | crates/core/src/config.rs:3044-3227 | in every reachable state seeded threads have index 0 and derive exactly their seed, and unseeded threads have different indices below the counter |
| GlobalRng.DrawnIndicesNeverRepeat | crates/core/src/config.rs:3142-3155 | indices taken from the counter strictly increase over any run |
| GlobalRng.DrawnIndex | crates/core/src/config.rs:3142-3155 | the nth index taken is n, and only an unseeded thread takes one |
| GlobalRng.SharedIndexExactly | crates/core/src/config.rs:3123-3155 | two threads share an index if and only if both were last seeded, or one was and the other took the first index and has been neither seeded nor cleared since |
| GlobalRng.IndicesCollide | crates/core/src/config.rs:3123-3155 | a run of two calls after which two threads share an index |
| GlobalRng.NonInterference | crates/core/src/config.rs:3107-3227 | in every interleaving a seeded thread's outputs are those of its own calls alone from that seed |
| GlobalRng.SameSeedSameOutputs | crates/core/src/config.rs:3113-3131 | two processes that agree on one thread's calls after `set_seed` agree on what it sees |
| DeterministicIds.NewIdentifier | crates/core/src/config.rs:3384-3417 | the steps on clock cells, random cells and index counter compute `Perform`, with the standard identifier outside deterministic mode |
| DeterministicIds.NothingElseMatters | crates/core/src/config.rs:3384-3417 | a seeded thread with a simulated clock consults neither the counter nor the surroundings |
| DeterministicIds.OutcomesAlone | crates/core/src/config.rs:3384-3417 | in every interleaving such a thread does what it would do alone |
| DeterministicIds.SameSeedSameIdentifiers | crates/core/src/config.rs:3376-3417 | same seed, base time and calls on a thread give the same identifiers and random answers in any two processes |
| DeterministicIds.StampedWith | crates/core/src/config.rs:3384-3417 | in every mode: the timestamp is the simulated clock's, the system's on a thread that is only seeded, else the standard generator's; type and parent read back |
| DeterministicIds.IdentifierAt | crates/core/src/config.rs:3384-3417 | in every interleaving an identifier of a thread with a simulated clock, seeded or not, is stamped with the base plus the identifiers it created before |
| DeterministicIds.IdentifiersInOrder | crates/core/src/config.rs:3384-3417 | in every interleaving the transactions of such a thread are distinct, ordered by creation, and decode to their types and parents, as long as its identifiers stay below 2^48 ms |
| Gateways.GatewayList.MergeAndDeduplicate | crates/core/src/config.rs:2800-2811 | the loop over both lists computes first-wins deduplication of their concatenation |
| Gateways.DedupMeaning | crates/core/src/config.rs:2800-2811 | every address once, with the entry that came first, in the order of first appearance |
| Gateways.DedupLeft | crates/core/src/config.rs:2800-2811 | merging into a deduplicated list equals deduplicating everything at once |
| Gateways.DedupRight | crates/core/src/config.rs:2800-2811 | so does merging a deduplicated list |
| Gateways.DroppedExactly | crates/core/src/config.rs:2824-2838 | the warning lists exactly the saved addresses that the index lacks |
| Gateways.CollectCliEntries | crates/core/src/config.rs:873-915 | one malformed entry fails the pass, else repeated addresses are skipped |
| Gateways.MergeCliEntries | crates/core/src/config.rs:873-924 | command-line entries are put in front of the list, deduplicated |
| Gateways.CliGatewaysLead | crates/core/src/config.rs:873-924 | the list has no duplicates and starts with the distinct command-line entries in order |
| Gateways.Isolation | crates/core/src/config.rs:747-782 | an isolated node's list depends neither on the saved file nor on the index |
| Gateways.ResolveFailsExactly | crates/core/src/config.rs:654-863 | each failure of the choice of gateways, if and only if its condition holds |
| Gateways.ListOf | crates/core/src/config.rs:695-924 | the list in every branch: index, saved, saved and inline, or inline, behind the command line |
| Gateways.SkippingList | crates/core/src/config.rs:770-802 | a node that skips the network without being isolated gets the saved list as it is, or saved and inline entries with the saved ones winning |
| Gateways.IsolatedList | crates/core/src/config.rs:747-782 | an isolated node gets command-line and inline entries, the former winning |
| Gateways.MergedEntries | crates/core/src/config.rs:2800-2811 | a merge keeps the first list's entry of every address, and of the others the second's |
| Startup.ConfigArgs.Merge | crates/core/src/config.rs:427-630 | field-by-field merge gives command line over file over built-in, flags one way only |
| Startup.ConfigArgs.MergeBudgets | crates/core/src/config.rs:545-560 | a file value equal to the legacy budget is not taken over |
| Startup.DataDir.Build | crates/core/src/config.rs:427-1132 | one start computes `Boot` on both files, and writes config.toml exactly when it succeeds and the text differs |
| Startup.DataDir.Persist | crates/core/src/config.rs:1117-1130 | the file ends up with the new text, written only if it was different |
| Startup.DataDir.ResolveGateways | crates/core/src/config.rs:653-924 | the branches on mode, index, inline entries, file and command line compute `Resolve`, saving a fetched index on the way |
| StartupTheorems.BootConfig | crates/core/src/config.rs:1117-1132 | config.toml changes only on success, and then to a function of the file read and the start, listed in this process's order |
| StartupTheorems.RunRefinesFold | crates/core/src/config.rs:427-1132 | after any sequence of starts each setting is its latest explicit value among the successful ones, else what was held, blocked addresses as a set; sticky flags are the or, telemetry the and; failed starts change nothing |
| StartupTheorems.SettingsFold | crates/core/src/config.rs:427-630 | the same for one plain setting over successful starts |
| StartupTheorems.FlagsFold | crates/core/src/config.rs:427-630 | the same for mode and flags |
| StartupTheorems.RunsWhatItSaves | crates/core/src/config.rs:926-1107 | the returned configuration agrees with the file written, field by field, and its peer id is public address and port |
| StartupTheorems.ExplicitSettingUsed | crates/core/src/config.rs:926-1107 | a command-line setting is used as given, but for a sweep interval of 0 and the set of blocked addresses |
| StartupTheorems.DefaultAddresses | crates/core/src/config.rs:926-940 | without a file the node listens on loopback in local mode and on all addresses otherwise |
| StartupTheorems.ExplicitBudgetsWin | crates/core/src/config.rs:1054-1085 | explicit hosting and module cache budgets win over the file |
| StartupTheorems.GatewayIdentity | crates/core/src/config.rs:632-651 | whatever was on disk, a successful gateway start has a peer id and saves what it takes to have one again |
| StartupTheorems.GatewayRoleKeepsIdentity | crates/core/src/config.rs:1700-1718 | in every file reachable from none, gateway role implies public address and port |
| StartupTheorems.GatewayExemptionIsIdle | crates/core/src/config.rs:805-830 | a validated gateway always has a peer id, so the guard's exemption is never needed |
| StartupTheorems.HostingNeverPinned | crates/core/src/config.rs:545-560 | from no key or the legacy value, without an explicit one, every successful start uses its own derived budget |
| StartupTheorems.UsedBudgets | crates/core/src/config.rs:1054-1085 | the budgets a start uses within any run are decided by the successful starts before it |
| StartupTheorems.ExplicitHostingSurvivesExactly | crates/core/src/config.rs:1381-1394 | over any run, failed starts included, an explicit budget is used by all successful starts if and only if none derives just that value before one that does not, and it is not the legacy value unless that is derived |
| StartupTheorems.ExplicitHostingForgotten | crates/core/src/config.rs:1381-1394 | a pair of starts at which an explicit budget is forgotten |
| StartupTheorems.OutOfRangeHostingSurvives | crates/core/src/config.rs:1381-1394 | over any run an explicit budget outside the derived range survives |
| StartupTheorems.ModuleCachePinnedExactly | crates/core/src/config.rs:1082-1085 | over any run the module cache budget of the first successful start stays if and only if it is not the legacy value or later machines derive that too |
| StartupTheorems.BareStartRewritesExactly | crates/core/src/config.rs:1117-1130 | a bare start rewrites any file it could read if and only if a key is missing or not in normal form, a budget migrates, the text is not canonical, or blocked addresses come out in another order |
| StartupTheorems.BareRestartIsFixpoint | crates/core/src/config.rs:1117-1130 | a bare restart keeps the content if and only if no budget holds its migration value against the derived one, and rewrites the file if and only if one does or two or more blocked addresses come out in another order |
| StartupTheorems.BlockedOrderRewrites | crates/core/src/config.rs:942-947 | two starts with two blocked addresses of which the second, unchanged, writes the file again |
| StartupTheorems.BareRestartsConverge | crates/core/src/config.rs:1117-1130 | from anything on disk the second bare start keeps the content, and rewrites the file only for the order of blocked addresses |
| StartupTheorems.BareRestartSucceedsExactly | crates/core/src/config.rs:783-863 | a restart without flags after a success succeeds unless, and only unless, the node skips the network without being a gateway and gateways.toml is malformed, or missing with no public identity |
| StartupTheorems.FreshStartSucceedsExactly | crates/core/src/config.rs:783-863 | a first start without flags in an empty directory succeeds if and only if the index can be fetched |
| StartupTheorems.BootGateways | crates/core/src/config.rs:695-924 | skipping the network leaves gateways.toml alone; otherwise the saved list is the index, else the saved one, none in local mode, behind the command-line entries |
| StartupTheorems.RunningGateways | crates/core/src/config.rs:1043-1115 | the returned configuration holds the chosen gateways, which are also what is saved unless the network is skipped |
| StartupTheorems.SkippingStart | crates/core/src/config.rs:770-802 | a start that skips the network without being isolated runs with the saved list, plus inline entries, and leaves the file alone |
| StartupTheorems.IsolatedStartList | crates/core/src/config.rs:747-782 | an isolated start runs with command-line and inline addresses only, the former in front |
| StartupTheorems.FallbackNeverForgets | crates/core/src/config.rs:783-924 | over any run without an index, failed starts included, the saved list deduplicates to the command-line lists of the successful starts, latest first, before the initial list; no saved address is lost |
| StartupTheorems.SavedAddressesKeptExactly | crates/core/src/config.rs:1110-1115 | a successful start keeps all saved addresses if and only if it skips the network, falls back on the saved list, or the command line and (on the network) the index list them again |
| StartupTheorems.LocalStartErasesSavedGateways | crates/core/src/config.rs:1110-1115 | a local start that does not skip the network empties the saved list |
| StartupTheorems.IsolatedStart | crates/core/src/config.rs:747-782 | the outcome of an isolated start depends neither on gateways.toml nor on the index, and leaves that file alone |
| StartupTheorems.RemoteReplaceLosesExactly | crates/core/src/config.rs:695-746 | replacing by the index loses exactly the warned addresses that the command line does not list |
| StartupTheorems.EarlyFailuresExactly | crates/core/src/config.rs:427-651 | each failure before gateways are looked for, if and only if its condition on file and command line holds |
| StartupTheorems.FailedStartChanges | crates/core/src/config.rs:736-746 | config.toml stays; gateways.toml becomes the index exactly when the failure came after fetching a nonempty one, and stays otherwise |
| StartupTheorems.FailedStartReplacesSavedGateways | crates/core/src/config.rs:736-746 | a malformed command-line gateway next to a reachable index is such a failure |
| HostRanking.RankAdvertisedHosts | crates/core/src/operations.rs:433-468 | filter loop, in-place sort and truncation compute `Rank` |
| HostRanking.RingDistance | crates/core/src/ring/location.rs:71-79 | the smaller of the two arcs; within [0, 1/2], zero exactly for the same point of the ring |
| HostRanking.RingDistanceIsMetric | crates/core/src/ring/location.rs:71-79 | symmetric, with the triangle inequality |
| HostRanking.RankIsTopK | crates/core/src/operations.rs:428-468 | min(max, eligible) hosts, each with its own address that is not excluded, by distance to the target and then by address, and nothing left out is nearer than anything returned |
| HostRanking.RankedExactly | crates/core/src/operations.rs:440-452 | ranked at all are exactly the advertised peers with a known address that is not excluded |
| HostRanking.RankConserves | crates/core/src/operations.rs:433-468 | returned and left out together are exactly the eligible peers |
| HostRanking.AddressesIndependent | crates/core/src/operations.rs:452-461 | the addresses in rank order do not depend on the input order |
| HostRanking.ReturnedExactly | crates/core/src/operations.rs:433-468 | an eligible peer's address is returned if and only if fewer than the maximum of eligible peers are strictly nearer, or as near with a smaller address |
| HostRanking.OrderIndependentExactly | crates/core/src/operations.rs:452-461 | the whole result is independent of the input order if and only if no two different eligible peers share an address to which fewer than the maximum are strictly nearer |
| HostRanking.DistinctAddressesIndependent | crates/core/src/operations.rs:452-461 | in particular with distinct addresses |
| HostRanking.SharedAddressDependsOnOrder | crates/core/src/operations.rs:452-461 | two peers under one address: the result depends on who comes first |
| StreamingTimeout.AttemptTimeout | crates/core/src/operations.rs:704-763 | between 60 s and 600 s; above 60 s if and only if the payload exceeds the threshold; below the cap it covers the payload at the floor rate but for the truncated second, and beyond 90 s no more; the cap is reached exactly from 540 s of payload on |
| StreamingTimeout.TimeoutMonotone | crates/core/src/operations.rs:752-763 | never less time for a larger payload or a smaller threshold |

## Left out

- SimulationRun: assumes the clock stays below 2^48 ms; `ConsecutiveOrder` states what happens at the rollover.
- CutoffOrder: assumes the scaled time to live fits below the identifier's timestamp; `CutoffTakesOnlyTheOldExactly`, `CutoffSaturates` and `WrappedMultiplierCollectsTheYoung` cover the rest.
- Reachable: fewer than 2^64 calls, after which the index counter would wrap around.
- NonInterference: what the generator computes from its seed is abstract; an output names the seed and the queries answered so far.
- WaitInterval: what the flag reads at each poll is a parameter, and sleeping is exact.
- RankAdvertisedHosts: socket addresses are numbers in their own order, and the function from address to location is a parameter.
- Build: of the text of config.toml only the order of blocked addresses and a flag for other differences from the serialiser's output are kept.
- IEEE 754 rounding: ratios, distances and fractions are exact reals; non-finite ratios are filtered as in the code, a non-finite configuration or ceiling is not modelled.
- Relaxed atomics in the deadlock detector: runs are sequentially consistent; thread spawning, backtraces and parking_lot are not part of this model.
- Files, TOML, HTTP, directories, key files, secrets and failing writes: a start takes parsed files and fetch results as inputs, and reading, parsing and set-up failures as flags.
- Parsing of a `--gateway` value, of address ranges and of the rest of the command line: entries arrive parsed or malformed.
- Derivation of the budgets from memory: they are inputs of each start. The other built-in values are a table, of which only the addresses are stated.
- Settings that are not persisted by design (automatic update, protocol check, test environment).
- What the standard generator puts into an identifier outside deterministic mode (an input here), seed guards and scoped seeds.
- Routing, transport, contract execution, client events and generated serialisation code: outside the modelled core, or thin over libraries that are not part of this model.

# HawDB harness verification

A Dafny model of the measuring harnesses of HawDB: the concurrent protocols its
benchmarks drive, the oracles they compare the engine with, and the tools that
accept or refuse their evidence. What a harness asserts at the end of a run is
proved here for every run, every interleaving and every input. The engine itself
appears only through what a harness relies on: an owner lock with an admission
mutex, commits that advance an epoch, a publication that sets the watermark to
the epoch it captured, and search deltas that insert, replace and delete by
identifier.

`dafny verify dfyconfig.toml` checks the whole project.

## How it is built

Protocols are step machines. A state holds one program counter per thread, an
action is one atomic step (a lock operation, a barrier arrival, one
`fetch_add`), and a run is any sequence of enabled actions. For each machine
there is an invariant that every step keeps, a rank that every step lowers where
the run must end, and lemmas that read the harness's own assertions off the
invariant. Loops over data are methods with invariants, proved against
functions and predicates whose own laws are proved beside them. What a run did is
counted from its schedule and compared with what the state says, and what is
printed is read back by a reader that does not share a definition with the
printer.

| files | what they model |
|---|---|
| `OwnerLock`, `CyclicBarrier`, `Strides`, `Sums` | the owner lock, `std::sync::Barrier`, strided work sharing, finite sums |
| `Publication`, `PublicationInvariants`, `PublicationProgress`, `PublicationTheorems` | the consumer publication benchmark: writers, publisher, readers, channels, checkpoints |
| `PublicationHistory`, `PublicationScript` | the same benchmark told from the steps of a run: which capture a publication publishes, and the publisher's script |
| `Waves`, `WavesHistory` | the covered graph workload with two barriers per wave, and its statements and commits counted |
| `QueryConcurrency`, `QueryFairness`, `QueryHistory` | committed counters, sustained readers, fairness as the exact condition for termination, and queries and reads counted |
| `Words`, `Allocator`, `AllocationMeters`, `WindowReset` | the counting allocator, one atomic operation at a time, and its window reset |
| `Euclid`, `Shuffle`, `Sorting`, `OrderStatistics` | fixture oracles and statistics |
| `Texts`, `Corpus`, `Artifact`, `SearchMutation`, `Lending`, `GroupedEvidence` | corpus scanning, manifest checks and workload oracles |
| `TaggedValues`, `BoundedResponse` | the playground's tagged JSON and its bounded writer |
| `Json`, `TaggedReader`, `ResponseReader` | a reader of JSON, of tagged values and of whole answers, written from the JSON grammar (RFC 8259, sections 2 to 7) and the table of type tags |
| `CheckpointCoverage` | coverage logs of the automatic checkpoint cases |

Several results hold only under a condition, and each of these is stated as an
equivalence:

- a capture-before-writers run can finish exactly when the mode is not the
  legacy one and every writer has a write (`RunsEndCompleteIff`);
- the quiet phase meets its assertions exactly when the engine refuses none of
  its publications (`QuietPhase`);
- the wave workload reaches its epoch exactly when the number of writers divides
  the number of commits (`Waves.FinalReport`);
- the workers of the query benchmark stop exactly in the fair executions
  (`TerminatesIffFair`);
- the subtraction from LIVE wraps exactly when the residue of the live bytes is
  smaller than the freed size (`FreeNeverUnderflows`);
- a window reset is right for every way a run can go on exactly when what it
  leaves in and on the way to WINDOW_PEAK agrees with the live bytes at its
  store, up to what allocations in flight will reach anyway (`ResetIsRightIff`).
  Both ways to be wrong are shown by a run: bytes missed
  (`RacyResetMissesBytes`) and freed bytes kept (`RacyResetKeepsFreedBytes`);
- the nullable oracle is right exactly from two rows on (`NullableOracle`);
- the percentile index is the nearest rank exactly while saturation cannot show
  (`PercentileIndexIsExactIff`).

## Model

| member | source | states |
|---|---|---|
| OwnerLock.ApplyKeepsValid | src/api/publication.rs:75-101 | every lock operation keeps the lock words in agreement with the threads that hold them |
| OwnerLock.MutualExclusion | src/api/publication.rs:42-69 | over every run of lock operations an exclusive holder excludes every other holder |
| OwnerLock.LockProgress | src/api/publication.rs:75-101 | while a thread is inside the owner some lock operation other than a new request can be taken |
| OwnerLock.AdmittedThreadIsNext | src/api/publication.rs:75-101 | whatever the others do while an admitted thread waits, the set of holders only shrinks: nobody overtakes it |
| CyclicBarrier.ApplyKeepsValid | benches/concurrent_writers.rs:539-574 | the arrival count is the number of parties waiting in the current generation, and no party is more than one generation behind |
| CyclicBarrier.AllHaveArrived | benches/concurrent_writers.rs:570-574 | the last arrival finds every other party waiting |
| CyclicBarrier.SleepersCanWake | benches/consumer_publication.rs:259 | a barrier with every party asleep can wake one |
| Strides.CountIsExact | benches/consumer_publication.rs:290 | the stepped loop of one writer takes exactly the counted iterations |
| Strides.ExactlyOneOwner | benches/consumer_publication.rs:290 | every sequence number belongs to one writer and one of its iterations |
| Strides.CountsAddUp | benches/concurrent_writers.rs:162-167 | the strides of all writers hold exactly the given number of sequence numbers |
| PublicationInvariants.InitialHolds | benches/consumer_publication.rs:231-283 | the invariant holds when the threads are started |
| PublicationInvariants.StepKeepsInv | benches/consumer_publication.rs:231-374 | every step of every thread keeps it: lock, barrier, handshake, ledger of commits and rows, counters, checkpoint cadence, watermark |
| PublicationInvariants.RunKeepsInv | benches/consumer_publication.rs:231-374 | it holds in every reachable state of every configuration |
| PublicationInvariants.NoCommitBeforeRelease | benches/consumer_publication.rs:85-99 | with capture-before-writers the log is empty until `release` begins |
| PublicationInvariants.AllCommittedAfterRelease | benches/consumer_publication.rs:90-99 | once `release` has returned every writer has committed |
| PublicationProgress.StepLowersRank | benches/consumer_publication.rs:231-374 | every step lowers a rank, whichever thread takes it |
| PublicationProgress.RunsAreBounded | benches/consumer_publication.rs:231-374 | no scheduler can make a run longer than the initial rank |
| PublicationProgress.NoDeadlock | benches/consumer_publication.rs:231-374 | in a configuration that can finish some thread can move until the run is complete |
| PublicationProgress.NeverCompletes | benches/consumer_publication.rs:586-595 | in any other configuration no reachable state is complete |
| PublicationTheorems.RunsEndCompleteIff | benches/consumer_publication.rs:586-595 | every run is bounded, and a stopped run is complete if and only if the configuration can finish |
| PublicationTheorems.NoCommitBeforeCapture | benches/consumer_publication.rs:101-140 | a run with a foreground commit has an earlier step at which the publisher captured E while the log was empty |
| PublicationTheorems.ReleaseDiscipline | benches/consumer_publication.rs:85-99 | `release` runs at most once, never while the publisher holds any part of the owner, exactly once in a complete capture run, and leaves every writer with a commit |
| PublicationTheorems.NoSendBlocks | benches/consumer_publication.rs:85-99 | in every reachable state both bounded channels have room for the send about to happen |
| PublicationTheorems.WatermarkOverRun | benches/consumer_publication.rs:414-421 | over every run the watermark never goes back and never passes the source epoch |
| PublicationTheorems.AttemptsAdvance | benches/consumer_publication.rs:101-195 | in every mode an attempt advances the watermark exactly when it publishes, only covered ones can be refused, and what is published is the captured epoch at a source epoch no lower; with capture-before-writers the first captures E while the source ends above it by at least one commit per writer |
| PublicationTheorems.LogCoversOnce | benches/consumer_publication.rs:284-318 | when the writers are done every sequence number was committed exactly once, by its own writer |
| PublicationTheorems.FinalReport | benches/consumer_publication.rs:404-435 | a complete run has all writes counted, the epoch at initial plus writes plus triggers, every row at its last value, 16 triggers unless sustained, one attempt per trigger and all reads done |
| PublicationTheorems.FinalCheckpoints | benches/consumer_publication.rs:480-484 | a sustained run samples exactly the multiples of the interval up to the number of writes, in order |
| PublicationTheorems.QuietPhase | benches/consumer_publication.rs:444-464 | in every mode: the phase succeeds if and only if no publication is refused, and then the watermark is the current epoch and every attempt has advanced; disabled mode changes nothing |
| PublicationTheorems.WholeRun | benches/consumer_publication.rs:404-464 | both phases together: from a complete run the epoch and the watermark end at initial plus writes plus triggers plus quiet samples, with all rows and attempts accounted for |
| PublicationHistory.PublishesItsCapture | benches/consumer_publication.rs:101-195 | every publication outside legacy mode reports as captured the epoch of the database at the capture step of the same attempt, earlier in the run, and as source the epoch at its own step; unless refused the watermark becomes that captured epoch |
| PublicationHistory.LegacyPublishesCurrent | benches/consumer_publication.rs:124-129 | a legacy publication sets the watermark to the epoch at its own step and reports no captured epoch |
| PublicationHistory.PublisherStopsIff | benches/consumer_publication.rs:340-344 | in every reachable state the publisher ends at its loop head exactly when the sixteen rounds are over, or, sustained, when 4096 rounds are over or every writer has finished |
| PublicationHistory.ReadersReadAll | benches/consumer_publication.rs:320-335 | counted from the schedule, a reader that has returned has read exactly its number of requests, and none reads more |
| PublicationScript.RoundContinues | benches/consumer_publication.rs:101-195 | each step of a round is followed by the next one of the script, in every mode |
| PublicationScript.PublisherFollowsScript | benches/consumer_publication.rs:337-373 | in every run the steps the publisher has taken are exactly what the script of its mode prescribes before the step it is at: trigger, capture, release, preparation, reservation, construction, publication, cleanup |
| PublicationScript.PublisherCompletesScript | benches/consumer_publication.rs:337-373 | a publisher that has returned has worked through whole rounds, sixteen of them unless sustained |
| Waves.StepKeepsInv | benches/concurrent_writers.rs:509-596 | every barrier and worker step keeps workers, transactions, rows and barrier in agreement |
| Waves.RunKeepsInv | benches/concurrent_writers.rs:509-596 | the invariant holds in every reachable state |
| Waves.WavesStayTogether | benches/concurrent_writers.rs:555-575 | no worker commits a wave before all have staged it, none stages the next before all have committed, and waves differ by at most one |
| Waves.RunsAreBounded | benches/concurrent_writers.rs:509-596 | no run is longer than the initial rank |
| Waves.NoDeadlock | benches/concurrent_writers.rs:555-575 | until all workers are done somebody can move |
| Waves.FinalReport | benches/concurrent_writers.rs:586-596 | rows end at (commits / writers) * statements; the epoch has advanced by `commits` if and only if writers divides it |
| WavesHistory.WorkersDoAll | benches/concurrent_writers.rs:545-576 | counted from the schedule: a worker stages one value more with every statement, its row holds what it has committed, and when done it has staged every statement and committed every wave, no more |
| QueryConcurrency.StepKeepsInv | benches/mem_query_concurrency.rs:138-199 | every step, panics of writers and readers included, keeps counters, rows and reader quotas in agreement |
| QueryConcurrency.CommittedAccounting | benches/mem_query_concurrency.rs:54-67 | `committed` is the recorded successes plus the writers between their two updates; `writers_remaining` counts exactly the unfinished writers |
| QueryConcurrency.JoinReport | benches/mem_query_concurrency.rs:309-329 | at the join the totals agree, each row is one plus its writer's successes and each reader met its quota |
| QueryHistory.WritersQueryAll | benches/mem_query_concurrency.rs:163-197 | counted from the schedule, a writer that has returned has made exactly its number of queries, has recorded those that were answered, and none makes more |
| QueryHistory.NothingLost | benches/mem_query_concurrency.rs:309-329 | when no query fails, the join finds writers times iterations committed and every row at one plus the iterations |
| QueryHistory.ReadersReadAll | benches/mem_query_concurrency.rs:163-197 | counted from the schedule, a reader that has returned has read at least its quota, exactly that unless sustained |
| QueryHistory.ReaderStopsIff | benches/mem_query_concurrency.rs:164-168 | a reader stops exactly when its quota is met and, if sustained, no writer remains |
| QueryConcurrency.SustainedReadersOutliveWriters | benches/mem_query_concurrency.rs:138-199 | a sustained reader that has stopped has outlived every writer |
| QueryConcurrency.WritersDrain | benches/mem_query_concurrency.rs:138-199 | in every fair infinite execution the writers finish |
| QueryConcurrency.ReadersFinish | benches/mem_query_concurrency.rs:138-199 | and once they have, the readers finish |
| QueryConcurrency.FairRunsTerminate | benches/mem_query_concurrency.rs:138-199 | every fair execution reaches a moment at which all workers have stopped |
| QueryConcurrency.StarvedReadersNeverStop | benches/mem_query_concurrency.rs:138-199 | fairness is needed: an execution that starves the writers keeps a sustained reader going for ever |
| QueryFairness.TerminatesIffFair | benches/mem_query_concurrency.rs:138-199 | an execution reaches a moment at which all workers have stopped if and only if it is fair |
| QueryFairness.RoundRobinIsFair | benches/mem_query_concurrency.rs:138-199 | every round robin execution is fair |
| QueryFairness.FairExecutionExists | benches/mem_query_concurrency.rs:138-199 | every configuration has a fair execution, and it stops |
| Allocator.FreeNeverUnderflows | benches/mem_query_alloc.rs:43-47 | in every run the register holds what `fetch_sub` takes from it while the live bytes fit a word; in general the subtraction wraps if and only if their residue is smaller than the freed size |
| Allocator.StepKeepsInv | benches/mem_query_alloc.rs:34-86 | every single atomic step of any thread keeps the exact accounting behind the wrapping counters, resizing included |
| Allocator.RunKeepsInv | benches/mem_query_alloc.rs:34-86 | it holds in every reachable state |
| Allocator.QuiescentBalance | benches/mem_query_alloc.rs:93-103 | with nothing in flight LIVE is ALLOCATED minus DEALLOCATED and counts the owned blocks |
| Allocator.RunTracks | benches/mem_query_alloc.rs:34-40 | over a run the peak register holds the largest live value, or a thread is still carrying it there |
| Allocator.PeakIsLargestLive | benches/mem_query_alloc.rs:34-40 | with nothing in flight PEAK is the largest number of live bytes of the whole run |
| Allocator.WindowPeakIsLargestSinceReset | benches/mem_query_alloc.rs:105-115 | after a quiescent reset WINDOW_PEAK is the largest number since that reset, and never above PEAK |
| WindowReset.MaxLiveIsRaised | benches/mem_query_alloc.rs:34-47 | the largest number of live bytes of a run is the one at its start or one right after an increment |
| WindowReset.ResetReport | benches/mem_query_alloc.rs:105-115 | for any reset in any run, at the next quiescent point WINDOW_PEAK is the largest of the stored value, the values carried past the store and the live bytes after later increments; exactly when this is right, too little or too much |
| WindowReset.LeastContinuation | benches/mem_query_alloc.rs:34-86 | from every such state some run to quiescence raises LIVE no further than the largest allocation in flight, and none raises it less |
| WindowReset.ResetIsRightIff | benches/mem_query_alloc.rs:105-115 | the exact condition at the store under which a reset is right however the run goes on |
| WindowReset.DifferenceCanBeHidden | benches/mem_query_alloc.rs:105-115 | a run whose reset misses live bytes at the store and is still right for every continuation, because a larger allocation is in flight |
| WindowReset.QuiescentStoreIsRightIff | benches/mem_query_alloc.rs:105-115 | with nothing else in flight at the store, the reset is right if and only if the stored value is the live bytes |
| WindowReset.DocumentedResetIsRight | benches/mem_query_alloc.rs:105-110 | a reset taken while quiescent, as documented, is right for every continuation |
| WindowReset.RacyResetMissesBytes | benches/mem_query_alloc.rs:105-110 | a run in which an allocation between load and store is missed |
| WindowReset.RacyResetKeepsFreedBytes | benches/mem_query_alloc.rs:105-110 | a run in which a block freed between load and store stays in WINDOW_PEAK |
| AllocationMeters.CountersAreExact | benches/mem_query_alloc.rs:34-86 | with nothing in flight each of the five growing counters is the exact total over all operations of the run, a resize counting as one reallocation, one deallocation of the old size and one allocation of the new |
| Euclid.Gcd | benches/property_proofs.rs:174-179 | Euclid's loop ends with the greatest common divisor, an integer combination of its arguments |
| Euclid.BezoutIdentity | benches/property_proofs.rs:174-179 | every two numbers have a greatest common divisor that is an integer combination of them |
| Euclid.PermutedIsResidue | benches/property_proofs.rs:49-56 | the value of an ordinal is the one number below rows congruent to its multiple |
| Euclid.PermutedIsInjective | benches/property_proofs.rs:49-56 | a multiplier with a Bezout identity sends different ordinals to different values |
| Euclid.PermutedIsSurjective | benches/property_proofs.rs:49-56 | and reaches every value |
| Euclid.BijectionIffCoprime | benches/property_proofs.rs:66 | the fixture is a permutation if and only if the gcd is one |
| Euclid.DistinctSortedIsUnique | benches/property_proofs.rs:91-112 | there is only one ascending list of a set of values |
| Euclid.DistinctOracle | benches/property_proofs.rs:91-112 | the sorted distinct values are 0..rows and no two rows share one |
| Euclid.ComputedOracle | benches/property_proofs.rs:91-112 | the sorted distinct values of external plus one are 1..=rows |
| Euclid.NullableOracle | benches/property_proofs.rs:91-112 | null and every even value are the sorted distinct optional values if and only if there are two rows or more; each entry is stated outright |
| Shuffle.XorShiftStaysNonZero | benches/width_cost_planning.rs:107-110 | the generator reaches zero only from zero |
| Shuffle.XorShiftIsUndone | benches/width_cost_planning.rs:107-110 | every step of the generator is undone by an explicit inverse |
| Shuffle.XorShiftIsInjective | benches/width_cost_planning.rs:107-110 | no two states have the same successor |
| Shuffle.XorShiftKnownAnswer | benches/width_cost_planning.rs:107-110 | the first two states from seed one |
| Shuffle.DrawnAt | benches/width_cost_planning.rs:106-112 | the choice for a position is the remainder, by the number of places left, of the state after as many steps as positions have been settled |
| Shuffle.ShuffledIsPermutation | benches/width_cost_planning.rs:101-113 | every sequence of choices leaves a permutation |
| Shuffle.ShuffledIsInjective | benches/width_cost_planning.rs:101-113 | different choices give different orders |
| Shuffle.ShuffledIsOnto | benches/width_cost_planning.rs:101-113 | every order is reached by some choices, so that orders and choices correspond one to one |
| Shuffle.ShuffleWith | benches/width_cost_planning.rs:101-113 | the in-place loop computes the shuffle for any generator, and leaves it in the state after one step per settled position |
| Shuffle.ShuffleRanks | benches/width_cost_planning.rs:101-113 | the in-place loop computes the shuffle by the generator's choices and keeps a permutation, for any seed |
| Shuffle.Descending | benches/width_cost_planning.rs:101-113 | entry i of the descending order is rows - 1 - i, and the order is a permutation |
| Shuffle.FillExpected | benches/width_cost_planning.rs:116-133 | the batched fill writes each slot once and leaves the inverse of the ranks |
| Shuffle.TableIsTopLimit | benches/width_cost_planning.rs:180-185 | its first entries are the rows ordered by rank and cut to the limit |
| Shuffle.Oracle | benches/width_cost_planning.rs:101-133 | from the arguments to the oracle: for every order, size, seed and limit the expected identities are those of the rows ordered by rank and cut to the limit; an unknown order is refused |
| Sorting.SortIsSorted | examples/search_lexical_corpus_qualification.rs:101 | the sort is ordered |
| Sorting.SortedIsUnique | benches/grouped_evidence/reference.rs:14-24 | an ordered rearrangement is unique under a total order, so the sorting algorithm does not matter |
| OrderStatistics.PercentileIndexIsExactIff | benches/wal_group_commit.rs:549-557 | the saturating index is the nearest rank if and only if the saturated product still reaches it |
| OrderStatistics.NearestRankIsLeast | benches/wal_group_commit.rs:549-557 | the nearest rank is the least position at or above the given percentage of the samples, or the last one |
| OrderStatistics.StatisticsOfNothing | benches/wal_group_commit.rs:549-557 | without samples percentile, median and MAD are the default |
| OrderStatistics.PercentileIsNearestRank | benches/wal_group_commit.rs:549-557 | on a sorted sample `percentile` is the only value with at least that many samples at or below it and fewer below |
| OrderStatistics.MedianIgnoresOrder | benches/wal_group_commit.rs:801-809 | the median depends only on the multiset of samples |
| OrderStatistics.MedianIsLeastMajorityBound | benches/wal_group_commit.rs:801-809 | more than half of the samples are at most v exactly for v at or above the median |
| OrderStatistics.MajorityHoldsMedian | benches/wal_group_commit.rs:801-809 | every interval with more than half of the samples holds the median |
| OrderStatistics.MadHoldsMajority | benches/wal_group_commit.rs:811-814 | a radius around the median holds more than half of the samples exactly from MAD on |
| OrderStatistics.MadIgnoresOrder | benches/wal_group_commit.rs:811-814 | MAD depends only on the multiset of samples |
| OrderStatistics.ShiftMovesMedian | benches/wal_group_commit.rs:806-809 | adding a constant to every sample moves the median by it |
| OrderStatistics.ShiftKeepsSpread | benches/wal_group_commit.rs:811-814 | and leaves MAD unchanged |
| OrderStatistics.PairedVerdictIsExact | benches/wal_group_commit.rs:628-671 | saturating the differences never changes whether the median regression reaches a budget |
| Texts.TextLeIff | examples/search_lexical_corpus_qualification.rs:101 | one identifier is at most another exactly when they are equal, the first is a proper prefix of the second, or at the first byte where they differ its own byte is smaller |
| Texts.TextLeIsOrder | examples/search_lexical_corpus_qualification.rs:101 | this order is total, transitive and antisymmetric |
| Corpus.RecordsTile | examples/search_lexical_corpus_qualification.rs:78-99 | the records lie one behind the other from the start to the end of the file |
| Corpus.RecordsPointAtInputs | examples/search_lexical_corpus_qualification.rs:78-99 | reading a record back gives the line it was made from |
| Corpus.NeighboursSuffice | examples/search_lexical_corpus_qualification.rs:101-104 | sorted without equal neighbours is strictly ascending |
| Corpus.IndexLines | examples/search_lexical_corpus_qualification.rs:78-99 | fails exactly on an undecodable line, an empty identity or an offset overflow, with the error of the first line that has one; otherwise records, bytes and statistics are those of the file |
| Corpus.Scan | examples/search_lexical_corpus_qualification.rs:69-125 | accepts exactly the files with good lines and distinct identities, and returns their records in strictly ascending byte order of identity; says which check failed otherwise |
| Corpus.Respool | examples/search_lexical_corpus_qualification.rs:219-238 | on any file, a successful second pass pushes one document per record under that record's identity; it fails exactly when some record no longer reads back, with the reason for the first of them |
| Corpus.Build | examples/search_lexical_corpus_qualification.rs:193-238 | an unchanged file is refused exactly when it is not acceptable or has another number of lines than expected; otherwise every line is pushed once in ascending byte order of identity |
| Artifact.TilesAddUp | examples/search_lexical_corpus_qualification.rs:140-157 | tiling blocks account for every byte between their ends |
| Artifact.TilesCoverOnce | examples/search_lexical_corpus_qualification.rs:140-157 | every byte between the ends is in exactly one block |
| Artifact.MeasureBlocks | examples/search_lexical_corpus_qualification.rs:136-154 | succeeds exactly when the blocks tile up to an end that fits a word, with exact totals although it adds saturating; otherwise all blocks before some block tile and that block has the reported fault |
| Artifact.ArtifactMetrics | examples/search_lexical_corpus_qualification.rs:127-183 | accepts exactly the manifests whose blocks tile the artifact behind its header with the recorded posting bytes; header, documents and postings add up to the artifact; a refusal names a check that does fail |
| SearchMutation.HexIsInjective | benches/search_mutation.rs:180 | padded hexadecimal printing never gives two numbers one text |
| SearchMutation.HexIsReadBack | benches/search_mutation.rs:180 | the text is the number in base sixteen with at least the given width, and has no zero in front of more digits than that |
| SearchMutation.LiveSize | benches/search_mutation.rs:289-293 | the live set after r rounds has documents + seeds - touches + r members |
| SearchMutation.ReplacementCycles | benches/search_mutation.rs:223-227 | the rounds go in order through the base documents that are left, or through the 32 seeds when none is, again and again |
| SearchMutation.RoundIsFresh | benches/search_mutation.rs:222-232 | the replaced identifier is live and the inserted one is not, also when every base document was deleted |
| SearchMutation.DeleteOrdinals | benches/search_mutation.rs:179-201 | exactly the listed documents go, and the reported number is right when all of them were live |
| SearchMutation.Prepare | benches/search_mutation.rs:98-218 | base build, seeds, replacements and deletes leave exactly the live set with the content of each last writer |
| SearchMutation.Round | benches/search_mutation.rs:220-250 | a round takes the live set and the contents of round r to those of round r + 1 |
| SearchMutation.Run | benches/search_mutation.rs:97-293 | every round counts documents + seeds - touches + r + 1, and the final store is known identifier by identifier |
| SearchMutation.Benchmark | benches/search_mutation.rs:97-293 | the same with the printed identifiers, including the final count without rounds |
| Lending.HashConcat | benches/relational_row_page_lending.rs:550-556 | hashing in pieces is hashing the concatenation |
| Lending.FnvKnownAnswers | benches/relational_row_page_lending.rs:550-556 | the published FNV-1a values of the empty text, "a" and "foobar" |
| Lending.HashOfOne | benches/relational_row_page_lending.rs:550-556 | hashing one byte is mixing it in |
| Lending.HashBytes | benches/relational_row_page_lending.rs:550-556 | the loop computes the fold |
| Lending.OwnedScan | benches/relational_row_page_lending.rs:262-301 | stops behind the row that reaches the limit, selects and hashes the matching rows before it, and counts every copied byte up to saturation |
| Lending.BorrowedScan | benches/relational_row_page_lending.rs:303-353 | the same rows and hash, counting only the bodies of selected rows |
| Lending.MeasureScan | benches/relational_row_page_lending.rs:192-217 | both scans agree on every table and threshold, the borrowed one copies no more, and the limit is reached exactly when the table has that many matches |
| Lending.BorrowedCopiesLess | benches/relational_row_page_lending.rs:531-538 | the selected bodies and eight bytes per row fit in what the owned scan copies |
| Lending.ThresholdSelects | benches/relational_row_page_lending.rs:196 | of the owners 0 to 99 exactly the last `selectivity` ones pass |
| Lending.FixtureScan | benches/relational_row_page_lending.rs:685-687 | on the fixture, for every selectivity and size, the scan is full exactly when the table reaches a computed row, and ends there |
| Lending.BenchmarkIsFull | benches/relational_row_page_lending.rs:46-62 | both table sizes fill the limit at all four shapes, after 3200, 392, 82 and 32 rows |
| GroupedEvidence.Put | benches/grouped_evidence.rs:113-122 | one row raises the held score of its document to at least its own and touches nothing else |
| GroupedEvidence.Collect | benches/grouped_evidence.rs:104-123 | every held score arrived and none that arrived beats it |
| GroupedEvidence.CollectedIsUnique | benches/grouped_evidence.rs:104-123 | the fold depends only on which rows arrive |
| GroupedEvidence.TopIsUnique | benches/grouped_evidence/reference.rs:14-27 | there is only one list of the best n entries in order |
| GroupedEvidence.Rank | benches/grouped_evidence/reference.rs:13-15 | every entry once, by falling score and rising key |
| GroupedEvidence.Summarize | benches/grouped_evidence/reference.rs:12-22 | the best score of a group is the largest one, and its evidence the best m documents |
| GroupedEvidence.SelectGroups | benches/grouped_evidence/reference.rs:9-36 | the best k groups in order, each with its best score and evidence |
| GroupedEvidence.SelectionIsUnique | benches/grouped_evidence/reference.rs:9-36 | no other answer qualifies |
| GroupedEvidence.SelectionIsBest | benches/grouped_evidence/reference.rs:9-36 | stated on scores and keys alone: no group left out has a better best score than one that is in, equal ones are in by smaller key, both lists are in that order, and likewise for the evidence of each group |
| GroupedEvidence.AnswerIgnoresArrival | benches/grouped_evidence_native.rs:376-396 | fold and selection together give the same answer for every arrival order and any repetition of the same rows |
| GroupedFixture.MultiplesAreExpected | benches/grouped_evidence_native.rs:352 | the closed form counts the matching documents for every size and stride |
| GroupedFixture.EligibleAreMultiples | benches/grouped_evidence_native.rs:238-258 | the visible documents are every so many-th of the matching ones |
| GroupedFixture.PredictionsAreExact | benches/grouped_evidence_native.rs:352-353 | both predictions of the fixture are exact |
| TaggedValues.QuotedCancels | examples/wasm_playground.rs:190-193 | two quoted strings with anything behind them are equal texts only if string and rest are equal |
| TaggedValues.EscapeTable | examples/wasm_playground.rs:190-193 | each escape of the JSON printer written out; every other character from the blank on stands for itself |
| TaggedValues.NumbersCancel | examples/wasm_playground.rs:194-201 | so can a list of numbers |
| TaggedValues.TagDetermines | examples/wasm_playground.rs:162-222 | equal type tags mean equal types |
| TaggedValues.ShowCancels | examples/wasm_playground.rs:159-249 | the text of an arbitrarily nested value can be cut off the front of any response in only one way, and determines type and value |
| TaggedValues.EntriesCancel | examples/wasm_playground.rs:241-249 | the same for the entries of a map, keys included |
| TaggedValues.ResponseDetermines | examples/wasm_playground.rs:133-155 | a response determines columns and rows |
| TaggedReader.ReadsQuoted | examples/wasm_playground.rs:190-193 | a quoted string, escapes included, is parsed back as that string, whatever follows it |
| TaggedReader.UnderstoodIff | examples/wasm_playground.rs:159-222 | readers of the scalar texts exist if and only if different values of a type have different texts and coordinates print as numbers |
| TaggedReader.DecimalsAreReadable | examples/wasm_playground.rs:171-201 | signed decimal numbers are such texts |
| TaggedReader.ValueRoundTrip | examples/wasm_playground.rs:159-249 | for every nested value and whatever follows it, the printed text is parsed up to its end and understood as that value, given readers for the scalar texts |
| TaggedReader.OutputRoundTrip | examples/wasm_playground.rs:133-155 | a complete response is parsed as an answer with status ok whose columns and rows are the printed ones |
| BoundedResponse.BoundedJson.Write | examples/wasm_playground.rs:120-126 | all of the bytes or none, and never more than the limit in the buffer |
| BoundedResponse.BoundedJson.WriteAll | examples/wasm_playground.rs:66-79 | however the text is cut it is taken exactly when it fits, and the buffer is always an exact prefix of it |
| BoundedResponse.Execute | examples/wasm_playground.rs:59-111 | a query that is too long gets the query limit error, a failing one its own failure, one whose encoding fits the complete encoding, any other the response limit error, each under its own condition |
| BoundedResponse.SuccessIsComplete | examples/wasm_playground.rs:59-111 | a caller sees a success exactly when query and complete encoding are within their limits and the engine answered |
| BoundedResponse.SuccessDetermines | examples/wasm_playground.rs:59-111 | two equal successes come from equal outputs |
| BoundedResponse.ErrorDetermines | examples/wasm_playground.rs:113-115 | an error response determines kind and message |
| BoundedResponse.FailuresAreToldApart | examples/wasm_playground.rs:80-107 | for queries within the limit two failures get equal answers if and only if they are equal |
| ResponseReader.AnswerIsRead | examples/wasm_playground.rs:59-115 | parsed, an answer gives back the engine's output, or the engine's kind and message, or the query limit error, or the response limit with its number of bytes and the engine's success, each exactly when it applies |
| CheckpointCoverage.Membership | scripts/automatic_checkpoint_cases.py:37-50 | a configuration is expected of exactly one case |
| CheckpointCoverage.ShardsAreDisjoint | scripts/automatic_checkpoint_cases.py:37-50 | two shards expect no configuration in common |
| CheckpointCoverage.ShardsMakeFull | scripts/automatic_checkpoint_cases.py:40-41 | `full` expects exactly what some shard expects |
| CheckpointCoverage.CaseSize | scripts/automatic_checkpoint_cases.py:45-61 | every case has six configurations and one completion line for one durability mode |
| CheckpointCoverage.TotalsOfOne | scripts/automatic_checkpoint_cases.py:64-109 | what one record and one completion line contribute to the totals |
| CheckpointCoverage.ValidateLog | scripts/automatic_checkpoint_cases.py:64-109 | a log is accepted exactly when each expected configuration occurs once, nothing else does, every line has images and the completion lines match; the report counts records and images; a refusal names the first check that fails |
| CheckpointCoverage.SummaryTotalIgnoresOrder | scripts/automatic_checkpoint_cases.py:53-61 | the expected completion lines do not depend on the order of the cases |
| CheckpointCoverage.JoinedLogsAreFull | scripts/automatic_checkpoint_cases.py:64-109 | one accepted log per shard, joined in any order, is accepted for `full` with all 48 configurations and the image counts summed |

## Left out

- The engine (WAL, MVCC, optimizer, caches, indexes, search storage): only what the harnesses rely on is modelled.
- Time, memory residency, page faults, thread sampling, file handling, child processes and the printing of reports.
- Channel and lock timeouts: the machines wait without a limit.
- PublicationTheorems.AttemptsAdvance: when the engine refuses a covered publication is left open; a refusal leaves the watermark as it was.
- PublicationTheorems.QuietPhase: which covered publications the engine refuses is a parameter.
- Memory ordering: atomic operations of all threads are interleaved in one order.
- QueryConcurrency: the two start barriers are not steps of this machine; workers start running.
- The serialisation of an output into chunks, the scalar printers and the wording of the response limit message are parameters; the printers are assumed injective, or to have a reader, which `to_string` has not for the different NaN values of a float.
- TaggedReader.ValueRoundTrip: the reader takes compact JSON only, without blanks between tokens and without surrogate pairs, neither of which the printer emits, and takes any run of number characters as a number; the readers of the scalar texts are parameters.
- The mapping from engine errors to the `kind` of an error response: a failure is a pair of kind and message.
- Non-finite vector coordinates, which print as `null`.
- Floating point scores: they are positions in the total order of `total_cmp`.
- JSON, regular expressions and the decoder of corpus lines: the models start from parsed fields, extracted records and a decoder parameter.
- Lending: a row whose owner or body has another type than the schema gives it, on which the source panics; the order of rows in the table is taken as given.
- SearchMutation: titles, bodies and embeddings are told apart only by ordinal and update mark; segment compaction, which does not change the live set, is not a step; identifiers are computed without the wrap-around of a machine word.
- Shuffle.ShuffleRanks: the seed is any word, and the in-place updates are on an array; the SQL text that the fill batches build is not modelled.
- Artifact.ArtifactMetrics: the six further counters that are only copied are one list of fields.
- `compare_reports`, which compares two reports field by field, the regression budgets, which are maxima of constants and ratios, recall and speedup ratios, and the expected costs of the optimizer, which are constants about code that is not modelled.

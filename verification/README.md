# Bauta, modelled and proved in Dafny

Bauta copies and masks production databases. This project models the logic that
decides what a copy holds and whether it survives a crash, and proves what its
documentation promises of it. Drivers, SQL text and AES are not modelled; where
the program meets them, the model takes an arbitrary function, an arbitrary
sequence of events or an arbitrary fault.

| modules | what they model |
|---|---|
| `SubsetQueries`, `SubsetPlan`, `SubsetClosure`, `SubsetBuilder`, `Subsetting` | the subset compiler: foreign keys, a root and a filter become one query per table. Queries are a small syntax tree with a three-valued semantics on bags of rows |
| `Cycles`, `Names`, `SchemaOrder` | finding a cycle, and the orders an acyclic graph has |
| `Scheduling`, `DependencyGraph` | the scheduler of one cycle's jobs: predecessors, worker slots, places on connections, late reservations |
| `NumeralStrings`, `Ff1` | FF1 format-preserving encryption (NIST SP 800-38G Rev. 1, sections 4.5 and 5.1), and the decryption the repository does not ship |
| `Publishing`, `FileTarget`, `LakeTables`, `PartNames` | append runs publishing files under locks, with death between any two store operations, as a protocol and as the code that runs it; parts and their names; snapshots kept |
| `Swapping` | the rename-based swap, its recovery, and whole sequences of swap jobs with faults |
| `Partitions`, `Pipeline`, `Slices`, `Watermarks` | slices that cover every row once, the read-ahead pipeline, partitioned loads under any interleaving, incremental runs across failures |
| `Throttle`, `Values`, `Reporting` | the shared read limit, the value preparer that skips work, the backwards line reader |

Code that updates state step by step is a class or a method with loops; each is
proved against a function or a predicate, and the properties are lemmas about
those. Protocols across processes are state machines over their steps.

## Findings

Each is a lemma or a contract below, with the condition under which the code does what is promised.

- An incremental job read as two or more slices can lose a row for good. Each
  slice reads its own snapshot, and the recorded watermark is the highest any
  slice read, so a row that appears after its slice was read, and before another
  slice reads further on, may lie behind every later query. The lookback
  `docs/concepts/how-it-works.md:111-129` asks for covers rows committed late, and
  `docs/concepts/how-it-works.md:254-258` says the copy is not one snapshot, but
  not that the lookback must also cover how far the source gets between slices'
  reads. Each attempt cuts its slices anew, from the bounds of what its query
  returns (`bauta/jobs/pipeline.py:421-434`), whatever `partitions.count` is.
  `Watermarks.LosesNothingExactlyWithin` says so exactly: no run loses a row if
  and only if lateness plus that distance, none for a count of one, is within the
  lookback. With no bound on it, `Watermarks.LosesNothingExactlyAsOneStream`: if
  and only if the count is one and the lookback covers the lateness.
- A run can append beside some of the parts of an earlier one that failed or
  died, in two ways. Taking back a dead run's parts passes over an intent that
  raises `OSError` when read. And where a store moves a part by copying and
  deleting it (`bauta/lake/stores.py:125-126`, and inside pyarrow on S3 and GCS),
  a failing delete leaves the copy in the table and out of `_published`, so
  `abort` does not take it back, and where it took back all it knows of it removes
  the intent with the staging. `docs/concepts/how-it-works.md:354-356` has neither
  exception. `Publishing.WholeOrGoneExactlyOnFaultlessStores`: every earlier run
  is in its table whole or not at all, in every state, if and only if reads of
  intents do not fail and no move fails halfway.
  `Publishing.EarlierRunsAreWholeOrGone` holds of each run whose intent could be
  read and that left no such copy.
- `FF1.encrypt` accepts exactly 2^32 numerals and then fails to write that
  length in four bytes. `Ff1.FF1.Encrypt` says which inputs raise which error.
- `FileHistory.read` tests its limit after appending, so a limit of zero or
  less still returns one record. `Reporting.LimitKeptExactlyWhenPositive`.

## Model

| member | source | states |
|---|---|---|
| `Subsetting.PlanSubset` | bauta/generate/subset.py:225-313 | The tables are those reachable from the root; a cycle is raised exactly where the included tables have one, and is a real one; the depth error only for a chain longer than the limit, never past 2n - 1 for n tables; otherwise every included table has its query, parents first, and for every source and filter each query copies exactly its table's rows of the closure, and no row a query returns references a source row that the parent's query leaves out |
| `Subsetting.PlanCopiesClosure` | bauta/generate/subset.py:264-313 | For every source and filter, a planned query copies exactly its table's rows of the least set that holds what is selected on the way down and is closed under following active keys, each row as often as the table holds it |
| `SubsetClosure.CopiedReferencesAreCopied` | bauta/generate/subset.py:1-9 | A parent row in the source that a row returned by the child's query references is returned by the parent's query |
| `Subsetting.PlanBreaksNoReference` | bauta/generate/subset.py:1-9 | So of every two queries of a plan, whatever the source and the filter |
| `SubsetClosure.KeptRowsAreTheClosure` | bauta/generate/subset.py:264-297 | What the selections mean, recursion over load order, is the least selected set and its least closure |
| `SubsetClosure.QueryCopiesClosure` | bauta/generate/subset.py:264-297 | Any query defining selections in order and ending in a kept one copies that table's part of the closure |
| `SubsetClosure.ClosureIsUnique` | bauta/generate/subset.py:264-297 | Two queries that copy the closure return the same bag |
| `Subsetting.EncodingsCopyTheSame` | bauta/generate/subset.py:99-134 | Through whole chains of selections, a table's query written with UNION ALL branches and one written with OR return the same bag |
| `SubsetQueries.EncodingsAgree` | bauta/generate/subset.py:121-134 | The two encodings of one selection return the same bag, each base row at most once, whatever the filter is of a row, NULL included |
| `SubsetQueries.BodyMeans` | bauta/generate/subset.py:121-134 | Either encoding returns the rows some condition is true of, as often as the table holds them |
| `SubsetQueries.ButNotMeans` | bauta/generate/subset.py:111-115 | NOT of an EXISTS is exact, so a branch takes just the rows no earlier branch took |
| `SubsetQueries.BranchesMean` | bauta/generate/subset.py:128-134 | The branches from the k-th on return each row whose first true condition is there, once |
| `SubsetQueries.DisjunctionMeans` | bauta/generate/subset.py:124-126 | Conditions joined with OR are true where one of them is, unknowns beside it or not |
| `SubsetPlan.ConditionsMean` | bauta/generate/subset.py:264-296 | A selection's conditions hold of a row exactly when the row is selected down, or kept |
| `SubsetPlan.ToParentMeans` | bauta/generate/subset.py:82-96 | An EXISTS over a parent's selection holds exactly of rows that reference a selected parent row, no NULL matching |
| `SubsetPlan.ToChildMeans` | bauta/generate/subset.py:82-96 | An EXISTS over a child's selection holds exactly of rows a kept child row references |
| `SubsetPlan.QueryMeans` | bauta/generate/subset.py:137-153 | A query over definitions in order returns exactly the rows its result means, as a bag |
| `SubsetPlan.DefinitionsMean` | bauta/generate/subset.py:137-153 | Evaluating definitions in order gives every selection the rows it means |
| `SubsetBuilder.PruningKeepsOrder` | bauta/generate/subset.py:137-153 | Leaving out what a result does not need leaves each selection defined before its first use |
| `SubsetBuilder.OnlyDefines` | bauta/generate/subset.py:151 | Pruning keeps exactly the needed definitions |
| `SubsetBuilder.Builder.Define` | bauta/generate/subset.py:99-134 | A selection is added once, after everything it uses |
| `SubsetBuilder.Builder.QueryFor` | bauta/generate/subset.py:137-153 | The worklist finds the least set that holds the result and what its members use |
| `SubsetBuilder.Builder.Visit` | bauta/generate/subset.py:156-164 | Remembered depths are the lengths of the longest chains |
| `SubsetBuilder.Builder.Depth` | bauta/generate/subset.py:156-166 | Some chain of references has this length and none is longer |
| `SubsetBuilder.LongestStep` | bauta/generate/subset.py:161-164 | The longest chain from a selection is one longer than the longest from what it uses |
| `Subsetting.ChainsAreShort` | bauta/generate/subset.py:278-304 | No chain of selections of n included tables is longer than 2n - 1 |
| `Subsetting.Reach` | bauta/generate/subset.py:176-195 | A worklist over keys one way finds the least closed set of tables |
| `Subsetting.Traverse` | bauta/generate/subset.py:169-195 | Roots and, following children, what references them; then all that those reference |
| `Subsetting.PlanIsValid` | bauta/generate/subset.py:249-261 | What planning settles meets all that the queries' meaning rests on |
| `Subsetting.DefineDown` | bauta/generate/subset.py:278-284 | After the first loop, the selections followed down are defined, each after its parents |
| `Subsetting.DefineKept` | bauta/generate/subset.py:286-297 | After the second, every kept selection is too, each after its children |
| `Subsetting.BuildPlan` | bauta/generate/subset.py:260-313 | The plan of a subset with an order, or the depth past the limit, which some chain has |
| `Subsetting.QueryIsPruned` | bauta/generate/subset.py:137-153 | A written query holds exactly what its result is built on, in order |
| `Subsetting.WriteQueries` | bauta/generate/subset.py:312-313 | One pruned query per included table |
| `Cycles.FindCycle` | bauta/configuration/models.py:835-865 | A cycle of predecessor edges among the keys, or None exactly where the graph restricted to its keys is acyclic; it terminates |
| `Cycles.CycleFinder.Visit` | bauta/configuration/models.py:843-857 | A real cycle, or the path as it was and the name visited with all it waits for before it |
| `Cycles.OrderedIsAcyclic` | bauta/configuration/models.py:835-865 | A graph with an order that lists predecessors first has no cycle |
| `Cycles.EndlessWalkCloses` | bauta/generate/subset.py:316-328 | A walk that can always go on inside a finite set closes into a cycle |
| `Cycles.TakeLayers` | bauta/generate/subset.py:316-328 | The loop takes layer after layer of what waits for nothing left |
| `Cycles.LayersStopExactlyAtCycles` | bauta/generate/subset.py:252-259 | Layering lists every table, parents first, exactly where there is no cycle |
| `Cycles.LayersAreOrdered` | bauta/generate/subset.py:316-328 | Each name listed is listed once, after all it waits for, and nothing left is ready |
| `SchemaOrder.OrderParentsFirst` | bauta/generate/schema.py:467-494 | Raises exactly when two or more tables form a cycle; otherwise each table once, after every other table it references |
| `SchemaOrder.CyclesOfTwo` | bauta/generate/schema.py:477-480 | Leaving out self-references leaves exactly the cycles that visit two tables |
| `Scheduling.EveryStateIsConsistent` | bauta/jobs/dependencyGraph.py:95-202 | In every state of every run of starts, late reservations, finishes, skips and a signal: at most `workers` jobs run, each limited connection's places are within its limit or one job's alone, every job is in one place, and only jobs whose predecessors completed were started |
| `Scheduling.StartWithinLimits` | bauta/jobs/dependencyGraph.py:168-180 | Starting a job its connections are free for keeps every connection within its limit |
| `Scheduling.ReserveWithinLimits` | bauta/jobs/dependencyGraph.py:148-165 | So does giving a started automatic job its places, after other starts too |
| `Scheduling.FewerWithinLimits` | bauta/jobs/dependencyGraph.py:183-187 | A job's end keeps the limits too |
| `Scheduling.SkippedExactlyWhen` | bauta/jobs/dependencyGraph.py:107-114 | Without a signal, a job of a finished cycle is SKIPPED exactly when a chain of predecessors leads to one that FAILED |
| `Scheduling.CycleEnds` | bauta/jobs/dependencyGraph.py:95-202 | Every finished cycle has one outcome for each job, SKIPPED, unless a signal came, exactly where a job waits on one that FAILED |
| `Scheduling.OneOutcomeEach` | bauta/jobs/dependencyGraph.py:183-202 | A finished cycle has exactly one outcome for each active job |
| `Scheduling.RanAfterPredecessors` | bauta/jobs/dependencyGraph.py:113-117 | In every run, a job that is running, completed or failed was started in a state where all its active predecessors had completed |
| `Scheduling.IdleLeavesNothing` | bauta/jobs/runner.py:276-281 | With nothing running and room to start, no job can be left: the assertion of the cycle's loop |
| `Scheduling.StartKeeps` | bauta/jobs/dependencyGraph.py:113-117 | A start keeps the bookkeeping consistent |
| `Scheduling.FinishKeeps` | bauta/jobs/dependencyGraph.py:183-187 | So does a job's end |
| `Scheduling.SkipKeeps` | bauta/jobs/dependencyGraph.py:199-202 | So does a skip |
| `Scheduling.ReserveKeeps` | bauta/jobs/dependencyGraph.py:159-165 | So does a reservation |
| `DependencyGraph.DependencyGraph.Create` | bauta/jobs/dependencyGraph.py:53-71 | Refuses the jobs exactly where active predecessors form a cycle, naming a real one; otherwise a graph with every job to start |
| `DependencyGraph.DependencyGraph.TakeReady` | bauta/jobs/dependencyGraph.py:95-119 | At most `limit` jobs started; every job left is left for want of room, of a predecessor or of a connection; with nothing running it starts a job or decides them all |
| `DependencyGraph.DependencyGraph.TakePass` | bauta/jobs/dependencyGraph.py:104-117 | A pass that changes nothing leaves each job for one of those reasons |
| `DependencyGraph.DependencyGraph.TakeOne` | bauta/jobs/dependencyGraph.py:106-117 | One job skipped, started or left |
| `DependencyGraph.DependencyGraph.Finish` | bauta/jobs/dependencyGraph.py:183-187 | The job leaves the running set and has its outcome |
| `DependencyGraph.DependencyGraph.SkipNotStarted` | bauta/jobs/dependencyGraph.py:190-196 | Every job not started is skipped, and the running ones stay |
| `DependencyGraph.DependencyGraph.FreePlaces` | bauta/jobs/dependencyGraph.py:148-156 | The least free places over the job's limited connections, at least one; None exactly where none is limited |
| `DependencyGraph.DependencyGraph.ReserveFor` | bauta/jobs/runner.py:214-219 | An automatic job is given no more than its share and no more than is free |
| `DependencyGraph.RunCycle` | bauta/jobs/runner.py:225-295 | At most `workers` jobs run; a cycle whose jobs end reaches the end within a round for each job; it ends with one outcome for each job, SKIPPED, unless a signal came, exactly where a failure was waited for |
| `DependencyGraph.FinishEnded` | bauta/jobs/runner.py:290-295 | The running list and the graph's set stay the same jobs |
| `Ff1.EncryptionIsAPermutation` | bauta/masking/fpe.py:83-117 | For every radix from 2 to 65536, length below 2^32, tweak and block function, the standard's decryption inverts encryption and encryption inverts it; lengths and digit ranges are kept |
| `Ff1.FF1.Encrypt` | bauta/masking/fpe.py:83-117 | The steps compute the standard's encryption; exactly which inputs raise which error |
| `Ff1.FF1.RunRound` | bauta/masking/fpe.py:102-115 | One round masks one half by the other and exchanges them |
| `Ff1.FF1.RunRounds` | bauta/masking/fpe.py:102-115 | Ten such rounds |
| `Ff1.FF1.Prf` | bauta/masking/fpe.py:52-62 | CBC-MAC over whole 16-byte blocks |
| `Ff1.FF1.Expand` | bauta/masking/fpe.py:106-111 | Further blocks, numbered from 1, until there are d bytes |
| `Ff1.RoundInput` | bauta/masking/fpe.py:103-105 | The input of the pseudorandom function is whole 16-byte blocks |
| `Ff1.NumberFits` | bauta/masking/fpe.py:104 | NUM of a half fits the bytes it is written in |
| `Ff1.BytesSuffice` | bauta/masking/fpe.py:97 | Every number of v numerals fits byteCount bytes |
| `Ff1.SettingsAreValid` | bauta/masking/fpe.py:92-100 | What the steps before the rounds compute is what every round relies on |
| `Ff1.MixingUndone` | bauta/masking/fpe.py:113-115 | The standard's decryption step undoes an encryption step |
| `Ff1.RoundsUndone` | bauta/masking/fpe.py:102-115 | For any round function, undoing the rounds last first gives back the halves |
| `Ff1.MinimumLength` | bauta/masking/fpe.py:17-24 | The fewest numerals whose strings number at least a million |
| `NumeralStrings.FillNumerals` | bauta/masking/fpe.py:74-80 | The loop fills in STR of the number |
| `NumeralStrings.SumNumerals` | bauta/masking/fpe.py:65-71 | The loop sums up NUM of the numerals |
| `NumeralStrings.NumeralsOfNumber` | bauta/masking/fpe.py:65-80 | STR of NUM of a numeral string is the string |
| `NumeralStrings.NumberOfNumerals` | bauta/masking/fpe.py:65-80 | NUM of STR of a number that fits is the number |
| `Publishing.WholeOrGoneExactlyOnFaultlessStores` | bauta/lake/target.py:121-179 | Under any interleaving of invocations and runs and death at any step, each earlier run of a prepared run's job and table has all its parts in the table or none, if and only if reading an intent never fails and no move fails between copying and deleting |
| `Publishing.EarlierRunsAreWholeOrGone` | bauta/lake/target.py:121-179 | On any store, the same of each earlier run whose intent the prepared run could read and that left no copy behind; that run is over and its intent gone |
| `Publishing.FinishedRunsStayWhole` | bauta/lake/target.py:98-144 | A run that finished keeps all its parts in the table, whatever happens after |
| `Publishing.TakesBackOnlyItsOwn` | bauta/lake/target.py:147-179 | Taking back deletes only parts of a dead or failed earlier run of the same job and table |
| `Publishing.NeverTwiceAtOnce` | bauta/jobs/memory.py:73-104 | The run lock and the jobs' locks never let two runs of one job be under way |
| `Publishing.BetweenRunsTablesAreWhole` | bauta/lake/target.py:49-58 | After a job's run finishes, each of its runs so far is in the table whole or not at all, but for one whose intent it could not read or that left a copy behind; on a store with neither fault, every one is |
| `Publishing.UnreadIntentLeavesHalf` | bauta/lake/target.py:159-168 | A run that cannot read a dead run's intent goes on beside half of its parts |
| `Publishing.HalfMoveLeavesHalf` | bauta/lake/stores.py:125-126 | A run whose first move copies and fails to delete ends with its intent removed and half of its parts left, beside which the next goes on |
| `Publishing.StepKeeps` | bauta/lake/target.py:75-272 | Every step of a run, of the locks, of taking back and of aborting keeps the invariant |
| `Publishing.TakenBackIsOver` | bauta/lake/target.py:147-179 | The run being taken back is over, is earlier, and its intent lists what is left |
| `FileTarget.FileTarget.Append` | bauta/lake/target.py:75-272 | One append, other processes acting between any two of its operations and any of those failing, halfway through a move too, or being its last: it ends with all its parts published, or with none or its intent left to the next run, or, only where a move failed halfway, with a copy left behind; having prepared, however it ends, it leaves each earlier run that it could read and that left no copy whole or gone; with no fault it returns |
| `FileTarget.FileTarget.TakeBackInterruptedAppends` | bauta/lake/target.py:147-179 | Returns only with every staging directory listed looked at and the last intent dealt with |
| `FileTarget.FileTarget.ReadIntent` | bauta/lake/target.py:159-168 | Asking whether an intent is there may fail the run; reading it may only pass it over |
| `FileTarget.FileTarget.TakeBack` | bauta/lake/target.py:170-179 | Every file listed is gone before the staging directory is |
| `FileTarget.FileTarget.MovePart` | bauta/lake/stores.py:103-126 | The next part is in the table, or the move failed, with nothing done or with the copy left there, or the process ended |
| `FileTarget.FileTarget.PublishInto` | bauta/lake/target.py:121-144 | Intent, every move, intent removed; a failure leaves the run among the moves, and a copy it does not know of only where a move failed halfway |
| `FileTarget.FileTarget.Abort` | bauta/lake/target.py:248-272 | However its deletions fail, the run ends failed, its parts taken back or left listed, and no copy left behind that was not there before |
| `FileTarget.FileTarget.Finish` | bauta/lake/target.py:98-118 | No parts, nothing published; otherwise published, staging that cannot be removed being no failure |
| `FileTarget.Lake.ExclusiveRun` | bauta/jobs/memory.py:73-104 | A run of every job is let in exactly where no other goes on, one of some where their locks are free, holding all of them; otherwise nothing is held |
| `LakeTables.Parts.Write` | bauta/lake/formats.py:310-330 | The rows written so far are kept in order, and a part is closed exactly when it reaches its size |
| `LakeTables.Parts.Close` | bauta/lake/formats.py:344-353 | The parts hold every row once, in order, numbered from 1 under the run's name; at least one, and exactly one for a single file |
| `PartNames.NamesAreApart` | bauta/lake/formats.py:50-56 | The formatted names of two parts are the same text only for one run, one number and one extension, whatever the runs are called |
| `PartNames.PaddedAreApart` | bauta/lake/formats.py:301-303 | Numbers filled up with zeros to five digits are told apart, past five digits too |
| `LakeTables.PruneSnapshots` | bauta/lake/target.py:219-236 | Exactly the stale snapshots go, but those that cannot be deleted |
| `LakeTables.NewestStay` | bauta/lake/target.py:219-228 | The newest complete snapshot and a newer run's incomplete one are never stale, and a complete one is exactly where `keep` newer complete ones are |
| `LakeTables.DroppingTheNewest` | bauta/lake/target.py:228 | Slicing off the last `keep` names complete snapshots with `keep` complete newer ones |
| `Swapping.LoadAll` | bauta/jobs/targets.py:155-282 | Over any sequence of swap jobs, any statement failing and the process dying before any, the target, or the temporary table standing in for it, holds what it did at first or the whole load of one of the jobs, none later having returned; a last job that returned left its load settled and a masked job's stage empty |
| `Swapping.Database.Load` | bauta/jobs/targets.py:155-282 | However one job ends, what was served still is, or its own whole load; where it returns, its load, settled |
| `Swapping.Database.Swap` | bauta/database/dialects/oracle.py:333-358 | Exchanges the tables, or leaves them after some of the renames, both loads whole |
| `Swapping.Database.Undo` | bauta/database/dialects/oracle.py:350-357 | Undoing, where an undo may fail too, leaves the tables after some first renames |
| `Swapping.Database.RecoverInterruptedSwap` | bauta/database/maintenance.py:191-226 | Finishes the swap exactly where the target is missing and undoes it where the stage is, serving what was served throughout; the refusal of all three tables is unreachable |
| `Swapping.Database.Begin` | bauta/jobs/targets.py:155-202 | What is served stays, however it ends; whenever it returns, target and stage are present, the temporary name is free and the stage is empty |
| `Swapping.Database.Finish` | bauta/jobs/targets.py:266-282 | However it ends, the old target's rows or the stage's are served; whenever it returns, the stage's, and a masked job's stage is empty |
| `Swapping.NeverAllThree` | bauta/database/maintenance.py:219-221 | No swap, killed or failed wherever, leaves all three tables |
| `Swapping.SwapFinishes` | bauta/database/maintenance.py:215-216 | A missing target is given a load that completed |
| `Swapping.SwapIsUndone` | bauta/database/maintenance.py:217-218 | A missing stage gets its table back and the target stays |
| `Partitions.SplitIsEven` | bauta/jobs/partitions.py:217-226 | Strictly increasing points in (lowest, highest], exactly min(count, span) slices, no two widths differing by more than one |
| `Partitions.SplitPointsAre` | bauta/jobs/partitions.py:217-226 | Sorting, removing repeats and filtering give every share's cut, or every value after the first where values are fewer |
| `Partitions.ExactlyOneSlice` | bauta/jobs/partitions.py:236-253 | A row is in slice k exactly when k counts the points its value has reached: NULL, fractions and values past the bounds included |
| `Partitions.ExactlyOneRange` | bauta/jobs/partitions.py:153-173 | The same for bounds non-decreasing in the database's order, whatever Python finds equal |
| `Partitions.KeptBoundsKeepOrder` | bauta/jobs/partitions.py:161-164 | Leaving out repeated bounds keeps their order |
| `Partitions.SlicePredicates` | bauta/jobs/partitions.py:236-253 | The list built in steps is one predicate per slice |
| `Partitions.QuantileSlices` | bauta/jobs/partitions.py:153-173 | So are the ranges, over the bounds kept |
| `Partitions.IntegerBound` | bauta/jobs/partitions.py:193-214 | A finite bound's integer at or below it, None where nothing was read, and an error exactly for an infinity or NaN and for what is no number |
| `Pipeline.Load.StreamChunks` | bauta/jobs/pipeline.py:667-698 | For every depth and every failing read, mask, write or stop: exactly the first chunks of the sequence are written, prepared, in order, with their exact row sum and highest watermark, all of them where nothing failed, and at most depth + 1 unwritten chunks are held |
| `Pipeline.Load.DepthChangesOnlyHowFar` | bauta/jobs/pipeline.py:667-698 | A load that reads to the end comes to the same at every depth; where a read fails it has written at most `depth` chunks fewer than one at a time |
| `Pipeline.Load.StreamInTurn` | bauta/jobs/pipeline.py:677-680 | Depth 0 writes each chunk as it is read |
| `Pipeline.Load.ReadAhead` | bauta/jobs/pipeline.py:684-690 | The reading loop queues chunks and writes the oldest past `depth` |
| `Pipeline.Load.WriteQueued` | bauta/jobs/pipeline.py:692-694 | The rest is written once everything is read |
| `Pipeline.Load.Write` | bauta/jobs/pipeline.py:363-379 | A chunk is counted, and its watermark kept, only once it is written; a stopped load writes nothing more |
| `Pipeline.HighestWatermark` | bauta/jobs/pipeline.py:650-664 | The largest watermark among the rows, None exactly where none has one |
| `Pipeline.ExecuteWithRetries` | bauta/jobs/pipeline.py:737-762 | The first attempt to complete or fail for good, or the last of 1 + retries; waits bounded by the cap |
| `Slices.CombineLoads` | bauta/jobs/pipeline.py:594-630 | From the slices' own loads, each having streamed all of its slice: whatever order they ended in and however their writes fell between each other's, the table got the bag that one stream of the rows writes, and the count and watermark returned are that stream's |
| `Slices.LoadIsLoaded` | bauta/jobs/pipeline.py:349-384 | A load that reached its slice's end wrote the slice's rows prepared, counted them, and kept their highest watermark |
| `Slices.PartitionedIsOneStream` | bauta/jobs/pipeline.py:574-630 | Whatever order the slices' chunks are written in and the slices end in, the bag written, the rows counted and the highest watermark are those of one stream |
| `Slices.NumberSlicesAreOneStream` | bauta/jobs/pipeline.py:574-630 | The same of slices read with the predicates of any increasing cut points |
| `Slices.RangeSlicesAreOneStream` | bauta/jobs/pipeline.py:574-630 | The same of slices at the values a column's shares end at |
| `Slices.InterleavingKeepsRows` | bauta/jobs/pipeline.py:594-623 | Any interleaving writes every row of every slice as often as it was read |
| `Slices.SlicesReadEveryRow` | bauta/jobs/pipeline.py:594-604 | Slices that put every row in exactly one read every row once |
| `Slices.SameRowsPrepareAlike` | bauta/jobs/pipeline.py:335-346 | Rows prepared one by one are the same bag in any order |
| `Slices.WaitForSlices` | bauta/jobs/pipeline.py:610-626 | The job's error is the first failure to be seen, and it succeeds only once every slice loaded |
| `Slices.Combine` | bauta/jobs/pipeline.py:628-630 | The sum of the slices' rows and the highest of their watermarks |
| `Slices.ChunkNumbersAreApart` | bauta/jobs/pipeline.py:322-346 | No two chunks of a job share a number, and read as one stream a chunk's number is its position |
| `Watermarks.LosesNothingExactlyWithin` | bauta/jobs/pipeline.py:421-434 | Over every run, failure, retry, death and change of the source, each attempt slicing between the bounds its query then returns, no row is lost if and only if how late a row may be, and, for a count of two or more, how far the source gets between slices' reads beside, is within the lookback |
| `Watermarks.LosesNothingExactlyAsOneStream` | bauta/jobs/pipeline.py:592-630 | With nothing said of how far that is, if and only if the count is below two and the lookback covers the lateness |
| `Watermarks.CloseReadsLoseNothing` | bauta/jobs/pipeline.py:778-809 | Whatever the count and wherever each attempt cuts, no row is lost where the lookback covers lateness and the distance between slices' reads |
| `Watermarks.SlicesLoseARow` | bauta/jobs/pipeline.py:592-630 | For every job of two or more slices past that bound, events within it, from two rows and one cut between them, after which a row is in no later query and not in the target as it is |
| `Watermarks.LateRowIsLost` | bauta/jobs/pipeline.py:786-793 | The same of one stream whose rows may be later than it looks back |
| `Watermarks.RecordsKeeps` | bauta/jobs/pipeline.py:786-793 | Recording the highest watermark written keeps every row at or below it copied |
| `Watermarks.UpsertsUndoNothing` | bauta/jobs/pipeline.py:363-377 | After an upsert of a row read earlier, every row no later query returns is in the target as the source has it |
| `Watermarks.TwoKeysAreTwoSlices` | bauta/jobs/pipeline.py:433-434 | Rows at two neighbouring keys are cut between them, however many slices are asked for |
| `Watermarks.StepKeeps` | bauta/jobs/pipeline.py:768-809 | Every event, of the source or of a run, an attempt that cuts anew among them, keeps the invariant |
| `Values.ValuePreparer.Prepare` | bauta/database/values.py:330-374 | Whatever chunks came before and whether or not the native extension answers, the chunk returned is every value converted by itself |
| `Values.PlainIsOne` | bauta/database/values.py:284-301 | There is one such chunk |
| `Values.ValuePreparer.KindsInPython` | bauta/database/values.py:310-328 | Each column's exact types, or none only where no value has a conversion |
| `Values.ValuePreparer.ConvertColumn` | bauta/database/values.py:349-364 | A column is kept only where converting it changes nothing |
| `Values.SignaturesTell` | bauta/database/values.py:319-323 | The rows' distinct type signatures hold each column's types |
| `Values.FitIn64Bits` | bauta/database/values.py:274-281 | The smallest and largest stand for all: true exactly where every int fits |
| `Values.NearestBaseDecides` | bauta/database/values.py:237-250 | A type's own entry wins over its bases', and otherwise its nearest base's |
| `Values.ValuePreparer.Find` | bauta/database/values.py:240-250 | A remembered conversion is the one looked up |
| `Throttle.RateIsKept` | bauta/jobs/throttle.py:55-101 | For any calls of any readers on a clock that never goes back, the rows of calls started at or after s and returned by e total at most rate * (e - s + burst) |
| `Throttle.ReadLimit.Take` | bauta/jobs/throttle.py:75-101 | One charge appended to the schedule, the sleep until it is paid for, and a schedule that never moves back |
| `Throttle.ChargedSince` | bauta/jobs/throttle.py:89 | What was charged since a time is paid for by the schedule, at most a burst early |
| `Throttle.BurstIsReached` | bauta/jobs/throttle.py:18-21 | The burst in the bound is needed |
| `Reporting.LinesBackwards` | bauta/jobs/reporting.py:70-92 | For every content and positive block size, the reverse of splitting the whole file on newlines |
| `Reporting.Read` | bauta/jobs/reporting.py:130-152 | The newest matching records first, as a full forward read would give them; an unreadable line fails the read only if it is reached |
| `Reporting.StoppedWithTheNewest` | bauta/jobs/reporting.py:143-150 | Stopping early returns the newest of all matching records |
| `Reporting.LimitKeptExactlyWhenPositive` | bauta/jobs/reporting.py:147-150 | No more than `limit` records come back exactly where it is positive or nothing matches |
| `Reporting.SplitIsTheOnlySplitting` | bauta/jobs/reporting.py:87 | Splitting is the only way to cut content into newline-free pieces that join back to it |
| `Reporting.SplitBlock` | bauta/jobs/reporting.py:87-90 | Holding back a block's first piece and joining it to the block before is exact |

## Left out

- SQL as text: aliases and their counter, quoting, WITH formatting, and telling an EXISTS condition from the root's filter by its text; the model tells them apart by construction.
- Subsetting: display spellings of table names, `relatedTables`, which lists what `Subsetting.Traverse` finds, and `draftSubset`.
- Subsetting.PlanSubset: takes table names already upper-cased and ignored columns already parsed, so the errors of parsing them are not modelled.
- SubsetClosure.CopiedReferencesAreCopied: speaks of active foreign keys only, as the documentation does; an ignored key's references may point at rows not copied.
- Scheduling: `refresh` windows, memory and what makes a job active; timeouts and process polling, whose effect is that a job ends, completed or failed.
- DependencyGraph.RunCycle: the progress report, and stopping processes after an exception of the loop itself.
- Ff1: AES, an arbitrary function from 16 bytes to 16 bytes, and the check of the key's length.
- Masking strategies other than FF1, key permutation and keyed hashes.
- Publishing: each store operation is atomic but the writing of an intent, which a death may cut short, and a move, which may fail between copying and deleting, a death there leaving what one after the move does; run ids are unique and increase; a process's locks and its jobs' processes end with it; all invocations share one lock file.
- Publishing: an exception in the instant after an intent is removed and before the run returns, which could only come from a signal, and the table's path changing under a job between runs; an intent names its table, and another table's is left alone.
- Publishing: overwrite and single-file publishing, a move each of a whole directory's parts or of one file, of which only the snapshots kept are modelled; the listing after `_SUCCESS` at bauta/lake/target.py:226, which may raise and abort a snapshot already complete.
- LakeTables.PruneSnapshots: takes the listing as given, oldest first; another job publishing an older snapshot of the same table meanwhile is not modelled.
- LakeTables.Parts.Write: encoders, compression and stream errors; `discard` frees what an abort deletes with the staging.
- Swapping: databases whose swap is one transaction, keys, indexes and grants given to the stage, ad hoc queries, and column resolution.
- Swapping.LoadAll: one process loads a target at a time, which the run lock guarantees.
- Partitions: resolving the column's name and choosing a count (`automaticCount`).
- Partitions.ExactlyOneRange: that the shares' largest values come back in the database's order is what the query asks for, and is a premise.
- Pipeline: stage times, progress counts and JSON decoding around masking; preparing is an arbitrary function of a chunk and its number that may fail, so the masking thread's own timing does not appear.
- Pipeline.Load.StreamChunks: the chunk a failing write was given may be partly committed by the database; the load does not count it.
- Slices.PartitionedIsOneStream: for preparers that treat each row by itself, as all do but `shuffle`, whose chunks are numbered apart instead.
- Watermarks: the attempt's own code, whose statements are the events `Begins` to `Ends` here; slices of a column that is not an integer key, which may hold NULL or be cut by shares (`bauta/jobs/pipeline.py:436`); upserts through a stage table, full refreshes, appends, hard deletes, which no watermark sees, and a key moving between slices.
- Watermarks.LosesNothingExactlyWithin: watermarks are a dense scale, as timestamps are; of integer ones it is the condition's sufficiency that carries over. The query is taken to return every row past its bound less the lookback.
- Throttle: floating-point rounding, times and rates being exact reals, and where a chunk's time is charged (`timedChunks`).
- Values: the conversions themselves, but for an int within 64 bits, which is sent as it is; columns of rows of unequal length.
- Reporting: JSON parsing is an arbitrary partial function of a line, and the file does not change during a read, which its lock guarantees.
- Schema rendering, type mapping, drift, discovery, audits, synthesis, notifications, the command line and the Studio: long case lists or plumbing.

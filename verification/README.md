# Verified models of the ns-3 tooling and example algorithms

This project models, in Dafny, the self-contained algorithms and protocols of
the repository that surround the ns-3 engine, and proves what they promise:

* the parallel test runner of `test.py`: dispatching, worker threads, break
  jobs, the interrupt flag, collecting, accounting and the `--rerun-failed`
  cycle (`WorkerPool`, `PoolRuns`, `PoolOrder`, `Accounting`, `Rerun`, on `Totals`);
* the gathering of configuration paths over the cyclic type graph
  (`Walks`, `TypeGraph`, `Records`, `ConfigPaths`);
* the load order of the Python bindings' libraries (`Layers`, `LibraryLoader`);
* the style fixer with its clang-format guards (`Text`, `GuardedPass`, `StyleFix`);
* Welford's algorithm and the event loop of the scheduler benchmark
  (`Welford`, `BenchRun`);
* Jain's fairness index and its 64-bit computation (`Fairness`);
* two event-driven senders (`Transfer`, `Sender`);
* the timeline searches and the legend layout of the trace viewer
  (`Timeline`, `Legend`).

`Sequences` holds the notions on sequences that several of them share.

`dafny verify dfyconfig.toml` checks everything.

## How the models are built

**Worker pool.** A state holds the main thread's phase, the two queues, each
worker's position in its loop, the results collected so far and `thread_exit`.
A schedule is a sequence of atomic moves of the main thread, a worker or the
signal handler, so a statement about all schedules is a statement about all
interleavings. A job is known by its dispatch number; what its process would
return is part of the plan, and every plan is allowed. All counting arguments
come from one flow lemma that says how the total of an arbitrary weighting of
the four places changes with a move: conservation of jobs, conservation of break
jobs, the termination measure and the schedule-independent counters are
instances of it. A run in which the collect loop raises an exception is a run
whose main thread moves no more.

**Places where the code does less, or other, than one would expect.** Each
bullet names the members that state the case and, where a promise fails, the
exact condition under which it holds:

* a negative `--jobs` value spawns no worker, and the main thread then waits for
  ever as soon as there is a job (`DeadlockFreeForLimit`);
* the rerun rule "run again exactly what ran and did not pass" holds for all
  outcomes exactly when no suite shares its name with a suite, and no C++ example
  with an example
  (`RuleIffDistinctNames`), and an interrupted run forgets earlier passes
  (`InterruptForgets`; with one worker exactly those behind a cut in dispatch
  order, `CutRunForgets`; `NextRunExecutes` gives the rule for every run);
* an example named by `--example` is run again although it passed, as are Python
  examples: their dispatch does not look at the results (`PassExemptsIff`);
* a missing results file of a suite ends the collect loop (`Collect`); the main
  thread then neither collects the rest nor joins, but the workers still finish
  every job and exit (`AbandonedRunEnds`);
* a failing suite is put on `failed_jobs` twice (`FailEntriesOf`);
* `dependency_order` never notices that it makes no progress; it ends in
  Python's recursion limit exactly when a library is absent, a dependency chain
  is a cycle, or there are more layers than frames (`SortToDependencies`);
* `Uniquefy` is documented as working in place but receives a copy, so the
  output keeps one record per route (`Gather`);
* the printed fairness quotient is the exact index exactly when its two 64-bit
  words overflow alike (`PrintedExactIff`): always while n times the sum of
  squares fits in 64 bits (`ExactBelowBound`) and for equal counters whose
  denominator does not vanish (`ExactForEqual`), not in general
  (`OverflowDividesByZero`, `OverflowExceedsOne`);
* `get_ranges` agrees with a linear filter exactly under `ExactlyWhen` and
  `TouchesKept`; it loses a range for some query as soon as two ranges share an
  end point (`CoverForAllIff`, `TouchingRangeIsLost`);
* `get_events` loses events that share the time of a query end, for some query
  as soon as two events share a time (`CompleteForAllIff`, `TiedEventsAreLost`),
  and may return the first event after the interval as well; `CompleteWhen` and
  `ExclusiveWhen` are the exact conditions for one query;
* the callback of the large transfer never returns when the socket accepts zero
  bytes for ever (`RunsForEverIff`);
* `Close` is called again by every callback after the last byte
  (`WriteUntilBufferFull`).

**Arithmetic.** Doubles are modelled as reals; the unsigned 64-bit sums of the
fairness computation are modelled with their wrap-around.

## Model

| member | source | states |
|---|---|---|
| WorkerPool.MainFlow | test.py:1926-1950 | how any weighting of queues, hands and results changes with a move of the main thread (put, break, get, join) |
| WorkerPool.WorkerFlow | test.py:1075-1159 | the same for a move of a worker: get, decide, run, put |
| WorkerPool.SteadyFlow | test.py:1075-1159 | a weight that follows a job through the pool changes only when the main thread puts a ticket |
| WorkerPool.MoveKeepsConserved | test.py:1075-1159 | every move keeps each dispatched job in exactly one place and each break job accounted for |
| WorkerPool.MoveKeepsOrdered | test.py:1926-1929 | every move keeps break jobs behind real jobs, and nobody holds a break while a real job waits |
| WorkerPool.MoveKeepsTruthful | test.py:1084-1110 | every move keeps reports true: skip as asked, the process's own code, or interrupted only after the flag was set |
| WorkerPool.ReachableKeepsInv | test.py:1612-1615 | the whole invariant in every reachable state, any number of workers, any interleaving, interrupts at any point |
| PoolRuns.ExactlyOnePlace | test.py:1075-1159 | in every reachable state a dispatched job is once in exactly one of input queue, a worker's hands, output queue, results |
| PoolRuns.NothingLeftAfterExit | test.py:1076-1083 | once a worker has exited no real job remains in the input queue |
| PoolRuns.MoveLowersRank | test.py:1075-1159 | every move of every actor strictly lowers the rank of the state |
| PoolRuns.EveryScheduleIsBounded | test.py:1574-1615 | no schedule has more than 6 jobs + 4 workers + 5 moves |
| PoolRuns.NoDeadlock | test.py:1949-1950 | with a worker, or nothing to do, some thread can always move until the run is finished |
| PoolRuns.DeadlockFreeIff | test.py:1612-1615 | the pool is free of deadlock if and only if there is at least one worker or no job |
| PoolRuns.DeadlockFreeForLimit | test.py:1601-1609 | on a machine with processors and with jobs to run: free of deadlock if and only if the process limit is not negative; there are then as many workers as the processors and a positive limit allow |
| PoolRuns.CanFinish | test.py:1949-2109 | from every state that keeps the invariant the run can be completed without a further interrupt |
| PoolRuns.FinalState | test.py:2108-2109 | at the end both queues are empty, every worker has exited, every job was collected exactly once |
| PoolRuns.MaximalRunsFinish | test.py:1926-2109 | every run that no thread can continue has ended in that state, unless the main thread left the collect loop on an exception (next row) |
| PoolRuns.AbandonedRunEnds | test.py:1949-2101 | wherever the main thread stops in the collect loop, the workers, once none can move, have all exited, the input queue is empty, and every job is once in the output queue or among the results |
| PoolRuns.WorkersCanFinish | test.py:1075-1159 | from every state that keeps the invariant the workers alone can get to where none can move |
| PoolRuns.InterruptStopsRealWork | test.py:1084-1092 | after the interrupt no further job starts: the real results are those under way when the flag was set |
| PoolOrder.TakenInDispatchOrder | test.py:1077-1092 | the jobs still waiting are always the last ones dispatched, in order, so jobs are taken in dispatch order |
| PoolOrder.OneWorkerKeepsOrder | test.py:1949-1950 | with one worker the results are collected in dispatch order, interrupted or not |
| PoolOrder.OneWorkerCut | test.py:1084-1092 | with one worker the results are real ones up to a cut and interrupted ones from it on; without an interrupt the cut lies behind them all |
| PoolOrder.EveryCutHappens | test.py:1084-1092 | an interrupt can cut a run of one worker behind any number of jobs |
| Accounting.Summary.CountStatus | test.py:1959-1985 | code 0 counts as passed, 1 as failed, 2 as a valgrind error, any other as crashed, a skip as skipped; only a job that returned a non-zero code stays on failed_jobs |
| Accounting.Summary.TakeResult | test.py:2068-2101 | a suite that was run stays on failed_jobs unless its file states a success; raises if and only if it returned 0, 1 or 2 and its file is missing |
| Accounting.Summary.Record | test.py:1949-2101 | one report keeps counters and failed_jobs those of all reports so far, even when it raises |
| Accounting.Summary.Collect | test.py:1941-2101 | the counters are the numbers of reports with code 0, 1, 2, any other code, and of skips, and failed_jobs is the log of all reports; the loop ends early if and only if a suite's results file is missing, at the first such suite |
| Accounting.Summary.ExitStatus | test.py:2218-2221 | status 0 if and only if every collected job passed or was skipped (none failed, crashed, hit valgrind or was interrupted) |
| Accounting.CountsAddUp | test.py:1949-1985 | five counters and the interrupted jobs add up to the number of reports |
| Accounting.CountsAreNumbers | test.py:1959-1985 | the count of each status is the number of reports with the outcome it stands for |
| Accounting.FailEntriesOf | test.py:1965-2093 | exactly when a job is not on failed_jobs, and exactly when it is there twice |
| Accounting.UninterruptedCounts | test.py:1949-1985 | the counts of an uninterrupted run are those of the plan for every schedule and number of workers |
| Accounting.UninterruptedNumbers | test.py:1949-1985 | an uninterrupted run reports as many skips, codes 0, 1, 2 and other codes as the plan has jobs to skip or with that code |
| Accounting.InterruptedCounts | test.py:1089-1092 | with interrupts no status exceeds the plan's count, and counts plus interrupted jobs equal the number of tests |
| Accounting.AbandonedCounts | test.py:1949-2101 | when the main thread leaves the collect loop, its counts, the interrupted jobs and what the workers leave in the output queue add up to the number of tests |
| Accounting.SuccessOfRun | test.py:2218-2221 | an uninterrupted run succeeds if and only if every job is to be skipped or returns 0 |
| Rerun.LoadPreviouslySuccessful | test.py:1165-1194 | the names with result PASS or SKIP under a tag, in file order |
| Rerun.LogNames | test.py:1996-2101 | which names the results file lists as successful, in terms of the collected reports |
| Rerun.OneReport | test.py:1949-1950 | a finished run has exactly one report for every test |
| Rerun.PassedIff | test.py:2013-2101 | a suite passes by its own file's result after code 0 or 1, an example by code 0 |
| Rerun.NextRunExecutes | test.py:1661-1667 | after any run, interrupted or not, the next one skips a suite or C++ example if and only if this one collected a success for it |
| Rerun.RerunExecutesTheFailed | test.py:1731-1740 | after an uninterrupted run the next executes exactly the suites and C++ examples that were executed and did not pass |
| Rerun.SkipsPersist | test.py:2068-2074 | a test skipped or passed in an uninterrupted run is skipped in the next, whatever the names |
| Rerun.CycleShrinks | test.py:1165-1194 | over any number of runs the executed sets of suites and C++ examples only shrink, and one that passed never runs again |
| Rerun.CycleExecutesTheFailed | test.py:1661-1740 | in any cycle, run k+1 executes exactly the suites and C++ examples of run k that did not pass |
| Rerun.PassExemptsIff | test.py:1765-1801 | a pass exempts a test from every rerun if and only if it is a suite or a C++ example that was not named by --example, or is never run |
| Rerun.RuleIffDistinctNames | test.py:1665-1740 | the rerun rule holds for all uninterrupted runs if and only if no suite shares its name with a suite and no C++ example with an example |
| Rerun.SharedNameHidesFailure | test.py:1665-1667 | for any two suites, or any C++ example and another example, that share a name there is a run after which a crash is not rerun |
| Rerun.OneWorkerRunIsCut | test.py:1084-1092 | every run of one worker reports the tests before some cut, in dispatch order, as without an interrupt and all others as interrupted |
| Rerun.SomeRunCutAt | test.py:1084-1092 | every cut, and all outcomes before it, occur in some run |
| Rerun.CutRunForgets | test.py:1661-1740 | after a run cut there, the next skips a suite or C++ example if and only if it lies before the cut and was skipped or passed |
| Rerun.InterruptForgets | test.py:1951-1952 | a run interrupted at once leaves no results, so the next executes everything not statically skipped |
| Walks.RemainingShrinks | utils/print-introspected-doxygen.cc:476-480 | following an edge leaves strictly fewer types that can still be entered |
| Walks.WalkFromRoot | utils/print-introspected-doxygen.cc:447-531 | the walk from a root finds a route if and only if it visits no type twice, and finds none twice |
| Walks.WalkIsSorted | utils/print-introspected-doxygen.cc:456-530 | the routes appear in strict lexicographic order of their edges |
| TypeGraph.TargetsAreKnown | utils/print-introspected-doxygen.cc:459-523 | every edge of every type leads into the finite set of types the registry mentions |
| TypeGraph.EdgesExplained | utils/print-introspected-doxygen.cc:456-530 | the edges of a type are exactly those that its pointer and container attributes, its registered children and the aggregations with it at either end yield, each once, in the order of the three loops |
| TypeGraph.EdgeIff | utils/print-introspected-doxygen.cc:456-530 | a type has an edge if and only if some entry of the registry yields it |
| Records.RenderPathCons | utils/print-introspected-doxygen.cc:360-370 | every label of a path stands behind a slash |
| Records.GatheredIsWalk | utils/print-introspected-doxygen.cc:447-531 | what the recursion appends is the list of (end type, rendered path) of the routes of the walk |
| Records.GatheredFromRoot | utils/print-introspected-doxygen.cc:447-531 | a record is appended if and only if it belongs to a simple route from the root |
| ConfigPaths.StaticInformation.DoGather | utils/print-introspected-doxygen.cc:447-531 | terminates on every graph, restores both stacks, appends exactly the records of the simple routes that avoid the stack |
| ConfigPaths.StaticInformation.GatherAttribute | utils/print-introspected-doxygen.cc:456-495 | one attribute: pointer (not to Object), container or neither |
| ConfigPaths.StaticInformation.GatherChild | utils/print-introspected-doxygen.cc:497-509 | one registered type: followed if it is a child |
| ConfigPaths.StaticInformation.GatherAggregate | utils/print-introspected-doxygen.cc:510-530 | one aggregation: followed to the other end |
| ConfigPaths.StaticInformation.GetCurrentPath | utils/print-introspected-doxygen.cc:360-370 | the labels of the stack, each behind a slash |
| ConfigPaths.StaticInformation.HasAlreadyBeenProcessed | utils/print-introspected-doxygen.cc:379-391 | membership in the stack of types |
| ConfigPaths.StaticInformation.RecordOutput | utils/print-introspected-doxygen.cc:372-377 | appends the type with the current path |
| ConfigPaths.StaticInformation.Gather | utils/print-introspected-doxygen.cc:439-445 | appends the records of the root and leaves them as they are |
| ConfigPaths.StaticInformation.Get | utils/print-introspected-doxygen.cc:393-406 | the recorded paths of a type, in order |
| ConfigPaths.StaticInformation.GatherAll | utils/print-introspected-doxygen.cc:586-590 | gathering root after root appends the records of each root's simple routes in turn |
| ConfigPaths.ConfigPathsOf | utils/print-introspected-doxygen.cc:586-590 | a path is documented for a type if and only if it renders the labels of a chain of distinct types from a root to it, each link yielded by the registry |
| ConfigPaths.ConfigPathIff | utils/print-introspected-doxygen.cc:447-531 | the labels of the simple routes are those of such chains |
| Layers.LoadedIff | bindings/python/ns__init__.py:432-443 | a library is loaded within k steps if and only if no chain from it is longer or leads to an absent library |
| Layers.StepIsLongestChain | bindings/python/ns__init__.py:445-460 | a library lands in step k if and only if its longest dependency chain has k links and none leads to an absent one |
| Layers.LoadsAllIff | bindings/python/ns__init__.py:445-460 | everything is loaded, within as many steps as libraries, if and only if none is absent and no chain is a cycle |
| Layers.StuckOtherwise | bindings/python/ns__init__.py:448-460 | otherwise a nonempty pending set remains for ever, each member waiting on a pending or absent library |
| LibraryLoader.ModulesThatCanBeLoaded | bindings/python/ns__init__.py:432-443 | the pending libraries whose dependencies are all current, in list order |
| LibraryLoader.Loader.MoveReady | bindings/python/ns__init__.py:452-457 | moves exactly the ready libraries from pending to current and into the new step |
| LibraryLoader.Loader.DoStep | bindings/python/ns__init__.py:450-457 | one step leads from the state after k steps to the state after k+1 |
| LibraryLoader.Loader.DependencyOrder | bindings/python/ns__init__.py:445-460 | finishes if and only if the frames suffice, then after the fewest possible steps; otherwise uses up all frames |
| LibraryLoader.SortToDependencies | bindings/python/ns__init__.py:462-467 | a permutation with every library after its dependencies, layer by layer; with enough frames it finishes if and only if none is absent and no chain is a cycle |
| Text.RStripResult | utils/check-style-clang-format.py:638 | stripping removes exactly the trailing whitespace |
| Text.ExpandKeepsText | utils/check-style-clang-format.py:678 | expanding tabs keeps every other character, in order |
| Text.TabStops | utils/check-style-clang-format.py:678 | what follows a tab starts at the next multiple of the tab size |
| Text.ReadOfWrite | utils/check-style-clang-format.py:529-565 | lines that are written are read back as they were |
| Text.WriteOfSplit | utils/check-style-clang-format.py:529-565 | splitting a text into lines loses nothing |
| Text.UniversalBreaks | utils/check-style-clang-format.py:529-530 | each of the three line ends is read as one newline |
| GuardedPass.DisabledIffOffSince | utils/check-style-clang-format.py:537-540 | the guard state is off if and only if some off guard has no later on guard |
| GuardedPass.CheckManually | utils/check-style-clang-format.py:505-567 | the file is rejected if and only if some line is not compliant and is a guard, or has no off guard in force, or guards do not count; neither verdict nor, in a fix run, content depends on verbosity, although check mode stops early |
| GuardedPass.CheckLines | utils/check-style-clang-format.py:532-560 | the loop fixes exactly the visited lines and judges exactly those |
| GuardedPass.NotCleanIff | utils/check-style-clang-format.py:532-560 | the same for the lines of a file, in terms of the guard lines alone |
| GuardedPass.FixedLineIs | utils/check-style-clang-format.py:532-556 | a line is fixed if and only if it is a guard, or has no off guard in force, or guards do not count |
| GuardedPass.EnabledTwiceMeansOnce | utils/check-style-clang-format.py:532-546 | wherever a second pass is enabled the first was, even when the fix creates guards |
| GuardedPass.FixIsIdempotent | utils/check-style-clang-format.py:525-567 | after a fix run the file passes, a second run changes nothing, and lines that were not visited are unchanged |
| StyleFix.TabsCheckerSound | utils/check-style-clang-format.py:654-686 | expanding tabs leaves none, changes only lines with tabs, keeps guards guards and lines lines |
| StyleFix.WhitespaceCheckerSound | utils/check-style-clang-format.py:621-651 | the same for stripping trailing whitespace |
| StyleFix.TabsCleanIff | utils/check-style-clang-format.py:654-686 | the tabs check passes a file if and only if every tab lies in a region switched off by the guard comment |
| StyleFix.WhitespaceCleanIff | utils/check-style-clang-format.py:621-651 | the whitespace check passes a file if and only if every line ends in a newline with no whitespace before it, whatever the guards |
| StyleFix.FixBoth | utils/check-style-clang-format.py:343-367 | whitespace pass then tabs pass leave the file clean under both checks; every line loses its trailing whitespace, and outside the off regions of the original its tabs are expanded, nothing else changes |
| StyleFix.FixBothLines | utils/check-style-clang-format.py:343-367 | that account of every line |
| StyleFix.FixBothIsIdempotent | utils/check-style-clang-format.py:343-367 | a second fix run leaves the file as it is |
| StyleFix.ExpansionKeepsWhitespaceOk | utils/check-style-clang-format.py:676-678 | expanding tabs creates no trailing whitespace |
| StyleFix.FixCanCreateGuard | utils/check-style-clang-format.py:536-546 | a family of lines that are no guard before the fix and a guard after it |
| Welford.StepTracks | utils/bench-scheduler.cc:358-362 | one accumulation keeps mean and sum of squared deviations exact |
| Welford.Log | utils/bench-scheduler.cc:331-388 | for at least two runs all six columns hold the exact mean and a non-negative population variance |
| Welford.MeanMinimises | utils/bench-scheduler.cc:342-346 | the mean is the centre of least deviation |
| BenchRun.Bench.Cb | utils/bench-scheduler.cc:163-176 | one event: stops when the total is reached, otherwise schedules one event and counts |
| BenchRun.Bench.Run | utils/bench-scheduler.cc:133-161 | constant population at every dispatch, time never goes back, exactly total events in total+1 callbacks; every event is scheduled by the delay drawn for it, after the dispatch that scheduled it, and waits or was dispatched |
| Fairness.SpreadIdentity | examples/tcp/dctcp-example.cc:184-197 | n times the sum of squares exceeds the squared sum by the sum of squared pairwise distances |
| Fairness.IndexBounds | examples/tcp/dctcp-example.cc:184-228 | the index lies in [1/n, 1]; 1 if and only if all equal, 1/n if and only if one alone is not zero |
| Fairness.NumeratorAndDenominator | examples/tcp/dctcp-example.cc:191-197 | the 64-bit numerator and denominator are the exact ones modulo 2^64, for all counters |
| Fairness.PrintedExactIff | examples/tcp/dctcp-example.cc:197-225 | the printed quotient is the exact index if and only if the denominator does not wrap to zero and numerator and denominator lose proportional multiples of 2^64 |
| Fairness.ExactBelowBound | examples/tcp/dctcp-example.cc:197-225 | the printed quotient is exact while n times the sum of squares is below 2^64 |
| Fairness.ExactForEqual | examples/tcp/dctcp-example.cc:197-225 | equal counters of any size print the exact index 1 if and only if the denominator does not wrap to zero |
| Fairness.OverflowDividesByZero | examples/tcp/dctcp-example.cc:197-225 | one flow of 2^32 bytes among silent ones makes numerator and denominator wrap to zero |
| Fairness.OverflowExceedsOne | examples/tcp/dctcp-example.cc:197-225 | with one further byte on another flow the printed index is above 1 |
| Fairness.FlowCounters.TraceS1R1Sink | examples/tcp/dctcp-example.cc:125-129 | the counters stay the bytes received per flow since initialisation, modulo 2^64 |
| Fairness.FlowCounters.TraceS2R2Sink | examples/tcp/dctcp-example.cc:131-135 | the same for the second group |
| Fairness.FlowCounters.TraceS3R1Sink | examples/tcp/dctcp-example.cc:137-141 | the same for the third group |
| Fairness.FlowCounters.InitializeCounters | examples/tcp/dctcp-example.cc:143-158 | starts a new measurement window for all three groups |
| Fairness.ReceivedOnly | examples/tcp/dctcp-example.cc:125-141 | a flow receives the sizes of its own packets and of no others |
| Fairness.LoadsConserve | examples/tcp/dctcp-example.cc:125-141 | the flows of a group together receive the bytes of all its packets |
| Fairness.FlowCounters.PrintFairness | examples/tcp/dctcp-example.cc:184-228 | the printed quotient of each group is that of the bytes its flows received since initialisation, although the counters may have wrapped |
| Fairness.FlowCounters.Measure | examples/tcp/dctcp-example.cc:125-228 | after initialisation and any sequence of sink calls, each group prints the exact index of its bytes if and only if the condition of PrintedExactIff holds; a silent group prints no number |
| Transfer.Flow.constructor | examples/tcp/tcp-large-transfer.cc:105-110 | the write buffer holds the alphabet pattern |
| Transfer.Flow.WriteOnce | examples/tcp/tcp-large-transfer.cc:224-237 | one round accepts the most that the socket's answer, its free space, the bytes left and the rest of the buffer allow (zero bytes included), and keeps the accepted bytes the pattern and within the total |
| Transfer.RunsForEverIff | examples/tcp/tcp-large-transfer.cc:221-243 | a callback never returns if and only if the socket, with bytes left and space offered, accepts nothing from some round on |
| Transfer.AnsweringEnds | examples/tcp/tcp-large-transfer.cc:221-243 | it returns when the socket refuses, fills up or progresses again and again |
| Transfer.GainsIff | examples/tcp/tcp-large-transfer.cc:221-238 | a callback with bytes left gains some if and only if a byte goes through before the buffer is full or a write is refused |
| Transfer.Flow.WriteUntilBufferFull | examples/tcp/tcp-large-transfer.cc:221-243 | whenever the callback returns: it stops at the first full buffer, refusal or completion, and closes if and only if all bytes are accepted |
| Transfer.Flow.Simulate | examples/tcp/tcp-large-transfer.cc:209-243 | over any number of calls with any answers each (full buffers that free again included): byte k is letter k modulo 26, never beyond the total, closed if and only if complete; complete once as many calls as bytes get a byte through |
| Sender.Application.StartApplication | examples/stats/wifi-example-apps.cc:103-120 | resets the count and leaves exactly one pending send |
| Sender.Application.StopApplication | examples/stats/wifi-example-apps.cc:122-127 | leaves no pending send |
| Sender.Application.SendPacket | examples/stats/wifi-example-apps.cc:129-153 | sends one packet and schedules another if and only if the count is below the limit |
| Sender.Application.StartAndFinish | examples/stats/wifi-example-apps.cc:103-153 | an undisturbed start sends exactly nPackets |
| Sender.Application.Handle | examples/stats/wifi-example-apps.cc:103-153 | one start, stop or timer event: a timer event sends if and only if the application is started and below the limit |
| Sender.Application.Drive | examples/stats/wifi-example-apps.cc:103-153 | over any interleaving at most one send is pending; an event sends a packet if and only if it is a timer event, some earlier start (or the state on entry) has no stop since, and fewer than nPackets were sent since the last start; the count is that number |
| Sender.SentSinceLastStart | examples/stats/wifi-example-apps.cc:116-152 | that number is the number of sends behind the last start |
| Timeline.TimelineDataRange.Search | utils/grid.py:113-130 | what it finds contains the key; in a sorted list, end points shared or not, -1 if and only if no range does |
| Timeline.OverlapsIff | utils/grid.py:147-163 | a range overlaps a query if and only if they share a point |
| Timeline.TimelineDataRange.GetRangesBounds | utils/grid.py:165-181 | when an end hits, covers the ranges that share more than an end point with the query, and all overlapping ones if and only if no touching range is passed over; selects exactly those if and only if both stated conditions hold |
| Timeline.TimelineDataRange.GetRanges | utils/grid.py:147-163 | equals the linear filter if and only if both stated conditions hold |
| Timeline.SingleHitsKeepTouches | utils/grid.py:154-163 | no range is passed over when no two ranges meet at an end of the query |
| Timeline.TouchingRangeIsLost | utils/grid.py:154-163 | of the ranges 0-5 and 5-9 a query for 5 returns one |
| Timeline.CoverForAllIff | utils/grid.py:147-163 | every query that hits a range returns all ranges it overlaps if and only if no two ranges share a point |
| Timeline.OverlappingRangeIsMissed | utils/grid.py:113-130 | among ranges that overlap the search misses one that contains the key |
| Timeline.TimelineEvent.Search | utils/grid.py:217-234 | an event at the key, or the place where it would go; which one among several at one time is that of the bisection |
| Timeline.TimelineEvent.GetEventsBounds | utils/grid.py:255-264 | always contains the events strictly inside; all events of the interval, and only those, if and only if the stated conditions hold |
| Timeline.TimelineEvent.GetEvents | utils/grid.py:244-253 | equals the linear filter if and only if both conditions hold; holds every event strictly inside and at most one outside, the first after the interval |
| Timeline.LoneEndsLoseNothing | utils/grid.py:251-253 | no event is lost when at most one event lies at each end of the query |
| Timeline.LoneStartExclusive | utils/grid.py:251-253 | then the surplus event is absent if and only if the upper end is an event's time, lies after all events, or the query is reversed around an event |
| Timeline.OneTimeReturnsOne | utils/grid.py:251-253 | a query for a single time returns one event; complete if and only if there is only one |
| Timeline.TiedEventsAreLost | utils/grid.py:221-234 | of three events at one time only the middle one is returned |
| Timeline.CompleteForAllIff | utils/grid.py:244-253 | every query is answered completely if and only if no two events share a time |
| Legend.TopLegendRenderer.Layout | utils/grid.py:582-607 | the height and the row breaks are those of the flow that Draw places, whose breaks and steps Draw and Show state on the boxes |
| Legend.TopLegendRenderer.Draw | utils/grid.py:616-647 | a row breaks before an entry if and only if the entry would cross the right edge beside the one before it; rows step down by the greatest height so far; no two entries overlap, all lie within the reported height, an entry crosses the right edge if and only if it is too wide for any row |
| Legend.TopLegendRenderer.Show | utils/grid.py:582-647 | layout and draw break the rows at the same entries, exactly where a row is full, and the reported height ends below the last row by the greatest height |

## Left out

- A job's process is assumed to end; a process that hangs keeps its worker for ever.
- Subprocesses, files, XML text, reports, colours and argument parsing of `test.py`; a job's return code and the result its own file states are inputs.
- What a rerun reads after a run whose collect loop ended in the exception for a missing results file: the file is then not closed, and `Rerun` speaks of runs that collected everything.
- `check_include_prefixes_line` and `check_formatting_file`: they depend on the file system, a regular expression and an external tool; `Sound` is not claimed for them.
- Verbose messages of the style checks, and the walk over directories that selects files.
- Library discovery and loading around `sort_to_dependencies`; the dependency map is an input.
- Registration of types, `IsChildOf` on parents (taken as a relation), and all printing in `print-introspected-doxygen.cc`.
- Removing duplicate records: the source does not do it, and the model states one record per route, so two routes with equal labels give equal records.
- Rounding of doubles, the conversion of 64-bit integers to double, and the averages printed beside the fairness index.
- Timeline.TimelineDataRange.GetRangesBounds: does not cover ranges that overlap in more than an end point, where the search itself misses ranges (`OverlappingRangeIsMissed`); the same holds for GetRanges.
- The sort calls of `grid.py`, whose comparison-function argument no longer exists in Python 3; lists are taken as sorted.
- Legend.TopLegendRenderer.Draw: does not model a drawing context whose text extents differ from those used in the layout.
- The simulator, sockets, queue discs, TCP variants and routing protocols under `src/`, and all example programs that only set up topologies.

# db_simulation core, modelled in Dafny

`db_simulation` is a teaching web application about database concurrency
control. Around its sqlite, chart and Flask plumbing it has five pieces of
sequential logic. This project models each of them and proves what they
promise:

- **Two-phase locking runner** (`TwoPhaseLocking`, models/two_phase_locking.py `_simulate_2pl`).
  - A lock table maps item → (owner, READ|WRITE).
  - Each transaction goes through a growing phase with the conflict rule, READ→WRITE upgrades and fresh acquisitions.
  - A conflict aborts the transaction and releases its locks.
  - Otherwise it writes deltas, then releases its locks, then commits.
  - The runner is the class `LockingRun`. Its methods are proved against left-fold specification functions (`Grow`, `ApplyWrites`, `ReleaseAll`, `RunTxn`, `RunAll`).
- **MVCC version-store runner** (`VersionStore`, `_simulate_mvcc` of the same file).
  - Each item has a version chain seeded by transaction 0.
  - Reads see the snapshot at the transaction's start.
  - The write-conflict check is only logged: the transaction still commits.
  - Versions are append-only inserts.
  - At commit, each item the transaction wrote takes the last version it inserted.
  - The runner is the class `MvccRun`.
- **Benchmark counting** (`Benchmark`, `run_benchmark`).
  - Rows are reset before each run.
  - "conflict"/"abort" events are counted by a loop, and the counts are compared with absolute differences.
  - The whole benchmark is the function `Benchmarked`, and the method `RunBenchmark` is proved equal to it.
  - The module also relates the two runners: they agree on transactions that read every item they write twice, and diverge on a blind double write.
  - Both runners leave the scripted workload at 160/180/285/425 with no conflict and no abort.
- **Deadlock detection** (`Deadlock`, models/deadlock.py `detect_deadlocks`).
  - Lock rows are inserted in order, each recording one step.
  - A holder lookup finds the first EXCLUSIVE row.
  - Wait-for edges are built from the WAITING rows.
  - Cycles are reported as closed descriptions.
  - The victim is the first member of the first cycle, and exactly its rows are deleted.
  - The steps are numbered consecutively.
  - For the scripted rows the edges are the ring 101→102→103→104→101, and no cycle remains after resolution.
- **Snapshot-isolation scenario** (`MvccScenario`, models/mvcc.py `run_simulation`).
  - The transaction log, account versions and accounts are state of the class `MvccSimulation`.
  - The visibility rule picks the version whose writer started latest, strictly before the reader, and otherwise the reader's own balance.
  - In the scripted T1/T2 run, T1 sees Bob's initial balance, and both transfers survive (Alice 800, Bob 2700).
- **Rate limiter** (`RateLimiting`, app.py `RateLimiter`).
  - Each call first purges every client whose last call is `period` or more old.
  - It then rejects a client that still has `max_calls` recorded calls, reporting `int(period - (now - last)) + 1` seconds to wait.
  - Otherwise it appends the call time.

Timestamps (`datetime.now().isoformat()`, compared as strings) are modelled
as ticks of a strictly increasing natural-number clock; the runners take
the last issued tick as a parameter. The rate limiter takes the current time
and the client id as parameters. Timeline entries are constructors of
`Timeline.Event` carrying the values the action text interpolates; whether
an action text contains "conflict" or "abort" is decided per constructor
(`Timeline.Mentions`).

## Model

| member | source | states |
|---|---|---|
| Timeline.Count | models/two_phase_locking.py:78-89 | the number of timeline events whose action mentions a marker never exceeds the timeline's length |
| Timeline.CountAppend | models/two_phase_locking.py:78-89 | counting a marker over two concatenated timelines adds the two counts |
| Timeline.CountNone | models/two_phase_locking.py:78-89 | a timeline none of whose events mentions a marker counts zero of it |
| Timeline.CountNoConflictAt | models/two_phase_locking.py:78-80 | every event of a timeline that counts no conflict does not mention one |
| Timeline.NoConflictQuiet | models/two_phase_locking.py:78-89 | a timeline that counts no conflict mentions neither marker, since the abort text also says "conflict" |
| Timeline.QuietCounts | models/two_phase_locking.py:78-89 | a timeline that mentions neither marker counts zero conflicts and zero aborts |
| Timeline.QuietAppend | models/two_phase_locking.py:78-89 | two timelines that mention neither marker concatenate to one that mentions neither |
| Timeline.QuietTransitive | models/two_phase_locking.py:78-89 | a log extended twice by suffixes that mention neither marker was extended by one such suffix |
| TwoPhaseLocking.WriteStep | models/two_phase_locking.py:271-291 | a write keeps the set of item rows |
| TwoPhaseLocking.ApplyWrites | models/two_phase_locking.py:271-291 | the write phase keeps the set of item rows |
| TwoPhaseLocking.RunTxn | models/two_phase_locking.py:191-312 | one transaction keeps the set of item rows |
| TwoPhaseLocking.RunAll | models/two_phase_locking.py:191-315 | the transaction loop keeps the set of item rows |
| TwoPhaseLocking.LockingRun.constructor | models/two_phase_locking.py:165-166 | the run starts with an empty lock table over the given rows and log |
| TwoPhaseLocking.LockingRun.ReleaseHeld | models/two_phase_locking.py:294-302 | the release loop leaves the lock table and log given by the release fold over `txn_locks` |
| TwoPhaseLocking.LockingRun.Acquire | models/two_phase_locking.py:203-252 | the acquisition loop leaves the lock table, `txn_locks`, `txn_data`, conflict flag and log given by the growing-phase fold |
| TwoPhaseLocking.LockingRun.Request | models/two_phase_locking.py:204-252 | one requested lock leaves the lock table, `txn_locks`, `txn_data`, conflict flag and appended log records of one growing-phase step |
| TwoPhaseLocking.LockingRun.WriteAll | models/two_phase_locking.py:271-291 | the write loop leaves the rows and log given by the write fold |
| TwoPhaseLocking.LockingRun.WriteOne | models/two_phase_locking.py:272-291 | one operation of the write loop leaves the rows and appended log records of one write-fold step |
| TwoPhaseLocking.LockingRun.RunTransaction | models/two_phase_locking.py:191-312 | one iteration of the transaction loop moves the whole state as `RunTxn` does |
| TwoPhaseLocking.LockingRun.Simulate2PL | models/two_phase_locking.py:157-315 | the whole runner moves the state as `Simulate` does, starting from an empty lock table |
| TwoPhaseLocking.QuietRelease | models/two_phase_locking.py:263-266 | the abort-path release logs nothing |
| TwoPhaseLocking.GrowSettled | models/two_phase_locking.py:219-220 | after a conflict the acquisition loop has stopped: later operations change nothing |
| TwoPhaseLocking.GrowStepFrame | models/two_phase_locking.py:208-239 | one request never touches other transactions' entries and removes nothing; the request conflicts exactly when the entry it meets at start is held by another transaction and either lock is WRITE |
| TwoPhaseLocking.HeldRequest | models/two_phase_locking.py:208-229 | on a held item: conflict iff another owner and either lock WRITE; READ on READ leaves the table unchanged; an own READ→WRITE upgrade changes only that entry's mode; `txn_locks` gains nothing |
| TwoPhaseLocking.FreeRequest | models/two_phase_locking.py:230-239 | a free item is acquired in the requested mode by the transaction and appended to `txn_locks`, with no conflict |
| TwoPhaseLocking.GrowConflict | models/two_phase_locking.py:203-220 | the growing phase conflicts iff some operation meets an incompatible entry of the starting table; other transactions' entries are untouched |
| TwoPhaseLocking.ReadsItemSnoc | models/two_phase_locking.py:241-245 | an operation list reads an item iff its prefix does or its last operation is that read |
| TwoPhaseLocking.GrowStepData | models/two_phase_locking.py:241-245 | a read that is not refused records the stored value in `txn_data`; a settled phase is left alone |
| TwoPhaseLocking.GrowData | models/two_phase_locking.py:241-252 | `txn_data` holds stored values only, and without a conflict exactly the items the transaction reads |
| TwoPhaseLocking.GrowStepEvents | models/two_phase_locking.py:203-252 | one request only appends to the log: one conflict event exactly when it is refused, never an abort, release or write |
| TwoPhaseLocking.GrowEvents | models/two_phase_locking.py:203-252 | the growing phase logs one conflict iff it conflicts, no abort, no release and no write |
| TwoPhaseLocking.GrowStepHeld | models/two_phase_locking.py:231-233 | one request keeps `txn_locks` duplicate-free, made of items free at start, and spanning the new table entries |
| TwoPhaseLocking.GrowHeld | models/two_phase_locking.py:198-239 | `txn_locks` lists distinct items that were free at start, and together with the starting table spans the lock table |
| TwoPhaseLocking.ReleaseAllEffect | models/two_phase_locking.py:294-302 | the release loop removes exactly the listed entries the transaction owns, keeps every other entry, and logs only releases (none on the abort path) |
| TwoPhaseLocking.RestoresLockTable | models/two_phase_locking.py:254-302 | after commit or abort the lock table is what it was before the transaction began |
| TwoPhaseLocking.WriteValues | models/two_phase_locking.py:271-291 | each row ends as its value read plus the last delta, or if not read the stored value plus all deltas in order |
| TwoPhaseLocking.WriteEvents | models/two_phase_locking.py:286-291 | the write phase logs nothing but write records |
| TwoPhaseLocking.CommitValues | models/two_phase_locking.py:270-291 | a committed transaction keeps the set of rows |
| TwoPhaseLocking.AbortLog | models/two_phase_locking.py:254-261 | an aborted transaction's log counts two conflicts and one abort, and no acquisition or write follows a release |
| TwoPhaseLocking.ReleasesLast | models/two_phase_locking.py:293-310 | a log whose release phase comes last obeys the two-phase rule |
| TwoPhaseLocking.NoReleaseAppend | models/two_phase_locking.py:203-291 | two logs without releases concatenate to one without releases |
| TwoPhaseLocking.CommitHead | models/two_phase_locking.py:191-291 | start, growing and write events of a committed transaction mention neither marker and contain no release |
| TwoPhaseLocking.CommitTail | models/two_phase_locking.py:293-310 | the release and commit events mention neither marker |
| TwoPhaseLocking.CommitLog | models/two_phase_locking.py:191-310 | a committed transaction's log counts no conflict and no abort, and releases come after every acquisition and write |
| TwoPhaseLocking.AbortOutcome | models/two_phase_locking.py:254-268 | an aborted transaction leaves the rows unchanged and appends start … abort, counting two conflicts and one abort, two-phase ordered |
| TwoPhaseLocking.CommitOutcome | models/two_phase_locking.py:270-312 | a committed transaction applies its deltas and appends start … commit, with no conflict and no abort, two-phase ordered |
| TwoPhaseLocking.CommitItems | models/two_phase_locking.py:270-291 | a transaction that does not abort leaves the rows of `CommitValues` |
| TwoPhaseLocking.SerialItems | models/two_phase_locking.py:191-315 | the serial outcome keeps the set of rows |
| TwoPhaseLocking.SerialRun | models/two_phase_locking.py:191-315 | run one after another from an empty table, no transaction conflicts: the table stays empty, rows follow `SerialItems`, and the log only grows by events that mention neither marker |
| TwoPhaseLocking.FreeTableCommits | models/two_phase_locking.py:191-312 | a transaction started on an empty lock table commits and leaves it empty |
| TwoPhaseLocking.QuietExtend | models/two_phase_locking.py:191-315 | a log extended by a suffix that mentions neither marker keeps its prefix property |
| TwoPhaseLocking.SimulateSerial | models/two_phase_locking.py:157-315 | the 2PL runner on rows it knows counts no conflict and no abort, and leaves the serial outcome |
| VersionStore.Visible | models/two_phase_locking.py:413-424 | the snapshot read finds a version of the chain with timestamp ≤ start, and finds none exactly when every version is later |
| VersionStore.LastBy | models/two_phase_locking.py:523-530 | the copy-back query returns a version the transaction inserted, and none exactly when it inserted none |
| VersionStore.CopyStep | models/two_phase_locking.py:517-537 | one copy-back keeps the set of rows |
| VersionStore.CopyBack | models/two_phase_locking.py:517-537 | the copy-back loop keeps the set of rows |
| VersionStore.RunTxn | models/two_phase_locking.py:389-542 | one MVCC transaction keeps the set of rows |
| VersionStore.RunAll | models/two_phase_locking.py:389-542 | the MVCC transaction loop keeps the set of rows |
| VersionStore.Seeded | models/two_phase_locking.py:365-386 | seeding gives every row one chain |
| VersionStore.Simulate | models/two_phase_locking.py:317-546 | the version table is dropped at the end |
| VersionStore.MvccRun.constructor | models/two_phase_locking.py:347-363 | the run starts with an empty version table over the given rows, log and clock |
| VersionStore.MvccRun.Seed | models/two_phase_locking.py:365-386 | the seeding loop gives each row one transaction-0 version holding its value |
| VersionStore.MvccRun.Operate | models/two_phase_locking.py:404-503 | the operation loop leaves the chains, clock and log given by the operation fold |
| VersionStore.MvccRun.OperateOne | models/two_phase_locking.py:405-503 | one operation leaves the chains, clock and local values of one operation-fold step and logs exactly one record |
| VersionStore.MvccRun.CopyBackWrites | models/two_phase_locking.py:517-537 | the copy-back loop leaves the rows given by `CopyBack` |
| VersionStore.MvccRun.RunTransaction | models/two_phase_locking.py:389-542 | one iteration of the transaction loop moves the whole state as `RunTxn` does |
| VersionStore.MvccRun.SimulateMvcc | models/two_phase_locking.py:317-546 | the whole runner moves the state as `Simulate` does |
| VersionStore.VisibleIsLatest | models/two_phase_locking.py:413-424 | on a chain in timestamp order the snapshot read returns the latest version with timestamp ≤ start |
| VersionStore.VisibleAtStart | models/two_phase_locking.py:413-424 | versions inserted after the start are invisible: the read returns the chain's last version from before |
| VersionStore.SeededVisible | models/two_phase_locking.py:365-386 | every seeded row has a visible version (its seed) for any later start, so a read always finds one |
| VersionStore.WriteOutcome | models/two_phase_locking.py:467-503 | a write meeting a newer version of another writer logs a conflict and inserts nothing; otherwise it appends base + delta and logs the new version |
| VersionStore.OpStepExtends | models/two_phase_locking.py:492-503 | one operation only appends versions, written by the transaction, with fresh timestamps |
| VersionStore.OpsExtend | models/two_phase_locking.py:404-503 | the operation loop never modifies or removes a version: every chain only grows, by the transaction's own fresh versions |
| VersionStore.OpStepLog | models/two_phase_locking.py:404-503 | each operation logs one event, never an abort, and a conflict exactly when the write meets a newer version of another writer |
| VersionStore.ItemOps | models/two_phase_locking.py:404-503 | a transaction started after every version reads each item's last committed value and writes on it without conflict |
| VersionStore.OpsQuiet | models/two_phase_locking.py:404-503 | a transaction started after every version logs no conflict and no abort and keeps the set of chains |
| VersionStore.CopyBackValue | models/two_phase_locking.py:517-537 | at commit each row the transaction wrote takes its last inserted version; other rows are unchanged |
| VersionStore.MvccCommitValues | models/two_phase_locking.py:441-537 | a committed MVCC transaction keeps the set of rows |
| VersionStore.SyncedStartsAfter | models/two_phase_locking.py:389-394 | a transaction started on a consistent store starts after every version |
| VersionStore.TxnItem | models/two_phase_locking.py:389-537 | per row, the chain stays ordered and non-empty, its last version holds the row value, and the row ends as the stored value plus the last delta written |
| VersionStore.TxnRows | models/two_phase_locking.py:389-537 | one transaction keeps the store consistent and leaves the rows of `MvccCommitValues` |
| VersionStore.TxnLog | models/two_phase_locking.py:389-513 | one transaction on a consistent store only appends events that mention neither marker |
| VersionStore.OpsNoAbort | models/two_phase_locking.py:404-503 | the operation loop never logs an abort |
| VersionStore.TxnNoAbort | models/two_phase_locking.py:389-513 | a transaction never logs an abort |
| VersionStore.RunNoAbort | models/two_phase_locking.py:389-542 | the transaction loop never logs an abort |
| VersionStore.SimulateNoAbort | models/two_phase_locking.py:317-546 | the MVCC runner never logs an abort, whatever the workload |
| VersionStore.MvccSerialItems | models/two_phase_locking.py:389-542 | the serial MVCC outcome keeps the set of rows |
| VersionStore.SerialRun | models/two_phase_locking.py:389-542 | run one after another, transactions keep the store consistent, leave `MvccSerialItems` and log nothing that mentions a marker |
| VersionStore.SeededSynced | models/two_phase_locking.py:365-386 | the seeded store is consistent with the rows |
| VersionStore.SimulateSerial | models/two_phase_locking.py:317-546 | the MVCC runner on rows it knows counts no conflict and no abort, and leaves the serial outcome |
| Benchmark.Reset | models/two_phase_locking.py:51-55 | the reset keeps the rows and sets Item 1-4 to 100/200/300/400, leaving every other row |
| Benchmark.ResetIdempotent | models/two_phase_locking.py:64-68 | resetting again after a reset changes nothing |
| Benchmark.CountMarkers | models/two_phase_locking.py:78-89 | the counting loop returns the number of events mentioning "conflict" and "abort" |
| Benchmark.Compare | models/two_phase_locking.py:99-108 | the comparison keeps both counts, and its difference is zero iff they are equal and otherwise their absolute difference |
| Benchmark.WorkloadKnown | models/two_phase_locking.py:169-188 | both scripted workloads touch only rows of a table holding Item 1-4 |
| Benchmark.RunBenchmark | models/two_phase_locking.py:29-108 | reset, 2PL run, reset, MVCC run, counting and comparison give the report of `Benchmarked` |
| Benchmark.CommitAgree | models/two_phase_locking.py:270-291 | run alone, a transaction that reads every item it writes twice leaves the same rows under 2PL and MVCC |
| Benchmark.DoubleWriteDiverges | models/two_phase_locking.py:273-284 | a blind double write keeps both deltas under 2PL but only the last under MVCC |
| Benchmark.SerialAgree | models/two_phase_locking.py:389-542 | such transactions run one after another leave the same rows under both protocols |
| Benchmark.ShapeDeltas | models/two_phase_locking.py:169-188 | a read-read-write-write script writes one delta to each written item |
| Benchmark.ShapeCommit | models/two_phase_locking.py:169-188 | such a script over two distinct read items adds its two deltas under both protocols |
| Benchmark.Final | models/two_phase_locking.py:169-188 | the scripted outcome keeps the rows |
| Benchmark.ScriptFinal | models/two_phase_locking.py:169-188 | both scripted workloads after the reset leave Item 1-4 at 160/180/285/425 |
| Benchmark.FinalRows | models/two_phase_locking.py:169-188 | the six scripted writes in order give the scripted outcome |
| Benchmark.ResetFinal | models/two_phase_locking.py:64-68 | the second reset undoes the first run completely |
| Benchmark.LockingScript | models/two_phase_locking.py:157-315 | the scripted 2PL run counts no conflict and no abort and ends at 160/180/285/425 |
| Benchmark.MvccScript | models/two_phase_locking.py:317-546 | the scripted MVCC run counts no conflict and no abort and ends at 160/180/285/425 |
| Benchmark.ScriptedBenchmark | models/two_phase_locking.py:29-108 | the benchmark reports zero conflicts, zero aborts and zero differences, and leaves the scripted outcome |
| Deadlock.Holder | models/deadlock.py:105-111 | the holder lookup finds the first EXCLUSIVE row on the resource, and none exactly when there is no such row |
| Deadlock.LockSteps | models/deadlock.py:87-117 | one step per inserted lock row |
| Deadlock.EdgeOf | models/deadlock.py:135-159 | a row gives an edge iff it is WAITING and its resource has an EXCLUSIVE holder; the edge goes from the waiter to that holder for that resource |
| Deadlock.EdgesMembership | models/deadlock.py:135-159 | the edge list holds exactly the edges of its rows |
| Deadlock.Without | models/deadlock.py:206 | deleting the victim's rows keeps exactly the rows of other transactions |
| Deadlock.WithoutCounts | models/deadlock.py:206 | the deletion removes every row of the victim and keeps every other row as often as it occurred |
| Deadlock.WithoutAppend | models/deadlock.py:206 | the deletion keeps the remaining rows in table order: deleting from two stretches of rows in turn is deleting from each |
| Deadlock.VictimIsolated | models/deadlock.py:201-213 | after the deletion no wait-for edge touches the victim |
| Deadlock.ClosedWalk | models/deadlock.py:164-170 | a cycle's description lists its members in order and closes back to the first along wait-for edges |
| Deadlock.RankedAcyclic | models/deadlock.py:162-177 | a graph whose edges all climb a ranking has no cycle |
| Deadlock.Climbs | models/deadlock.py:162-177 | along a cycle in such a graph the rank climbs at every step |
| Deadlock.DeadlockSteps | models/deadlock.py:172-177 | one detection step per reported cycle |
| Deadlock.Records | models/deadlock.py:164-170 | one deadlock record per reported cycle |
| Deadlock.LockStepsNumbered | models/deadlock.py:113-117 | lock steps are numbered 1, 2, … in insertion order |
| Deadlock.DetectedSteps | models/deadlock.py:87-213 | steps run 1, 2, … across lock, deadlock and victim steps; with cycles the last is the victim step and exactly the victim's rows are gone; without cycles nothing is deleted |
| Deadlock.DeadlockDetection.constructor | models/deadlock.py:46-48 | the detection starts from the given rows and no steps |
| Deadlock.DeadlockDetection.InsertLocks | models/deadlock.py:87-117 | the insertion loop stores the rows in order and appends their steps |
| Deadlock.DeadlockDetection.WaitEdges | models/deadlock.py:134-159 | the edge loop returns the edges of the current rows |
| Deadlock.DeadlockDetection.ReportCycles | models/deadlock.py:162-177 | the reporting loop returns one record per cycle and appends one numbered step each |
| Deadlock.DeadlockDetection.Resolve | models/deadlock.py:200-213 | with a cycle, the first member of the first cycle loses its rows and one victim step follows; without, nothing changes |
| Deadlock.DeadlockDetection.Detect | models/deadlock.py:23-217 | the whole detection gives the report and remaining rows of `Detected` |
| Deadlock.HolderAt | models/deadlock.py:105-111 | the first EXCLUSIVE row on a resource names its holder |
| Deadlock.EdgesSnoc | models/deadlock.py:135-159 | adding a row adds its edge, if any, at the end |
| Deadlock.NoWaitingNoEdges | models/deadlock.py:135-136 | rows with no WAITING row give no edge |
| Deadlock.ScriptHolders | models/deadlock.py:60-84 | in the scripted rows resource r is held by 100 + r |
| Deadlock.ScriptEdgesOf | models/deadlock.py:60-84 | rows with the scripted contents give exactly 101→102, 102→103, 103→104, 104→101 |
| Deadlock.ScriptEdges | models/deadlock.py:60-84 | the scripted rows give exactly 101→102, 102→103, 103→104, 104→101 |
| Deadlock.ScriptCycle | models/deadlock.py:56-84 | those edges form one simple cycle through all four transactions, and every simple cycle of the graph is that one started at some member |
| Deadlock.RingWalk | models/deadlock.py:56-84 | along a simple cycle of the scripted graph, member i is i steps round 101→102→103→104→101 from the first |
| Deadlock.RingShort | models/deadlock.py:56-84 | a simple cycle of the scripted graph has at most four members |
| Deadlock.RingClose | models/deadlock.py:56-84 | going once round a simple cycle of the scripted graph returns to its first member |
| Deadlock.RingCycles | models/deadlock.py:56-84 | a simple cycle of the scripted graph has exactly the four transactions, each followed by the next round the ring |
| Deadlock.RingRotation | models/deadlock.py:56-84 | every simple cycle of the scripted graph is 101, 102, 103, 104 started at one of them |
| Deadlock.OneScriptCycle | models/deadlock.py:162-164 | `simple_cycles` lists exactly one cycle for the scripted graph, the ring through all four transactions |
| Deadlock.ScriptRow | models/deadlock.py:60-84 | every scripted row belongs to 101-104 and holds its own resource or waits for the next one's |
| Deadlock.RingStep | models/deadlock.py:201-213 | ranked from the victim, every remaining ring edge climbs |
| Deadlock.RingEdge | models/deadlock.py:201-213 | after deleting the victim's scripted rows every edge is a ring edge avoiding the victim |
| Deadlock.ScriptResolvedOf | models/deadlock.py:201-213 | deleting any one scripted transaction's rows leaves no cycle |
| Deadlock.ScriptDetection | models/deadlock.py:60-213 | on the scripted rows the wait-for list is the ring, exactly one deadlock is reported (the ring through 101-104), the victim is one of 101-104, and after resolution no cycle remains |
| Deadlock.LockStepsAt | models/deadlock.py:87-117 | the i-th lock step is the step of the i-th row |
| Deadlock.ScriptStepsOf | models/deadlock.py:87-117 | scripted steps 1-4 acquire, steps 5-8 wait for the next transaction |
| MvccScenario.NextTxnId | models/mvcc.py:59-63 | a new log row's id exceeds every id in the log, is at least 1 and is 1 in an empty log, and is otherwise one more than some id in the log |
| MvccScenario.StartOf | models/mvcc.py:151-158 | a transaction's start is found iff it has a log row, and is that row's start |
| MvccScenario.Latest | models/mvcc.py:151-158 | the snapshot query finds a version whose writer started before the reader and latest among such, and none exactly when no version qualifies |
| MvccScenario.SnapshotIgnoresLater | models/mvcc.py:160-164 | versions written by transactions that started at or after the reader are never seen: the reader keeps its own balance |
| MvccScenario.SnapshotSeesEarlier | models/mvcc.py:151-164 | the only qualifying version is the one seen |
| MvccScenario.SetBalance | models/mvcc.py:44-45 | an account update keeps the accounts and changes only the named one's balance |
| MvccScenario.CommitEntry | models/mvcc.py:129-132 | committing marks exactly the transaction's log rows COMMITTED with the commit time |
| MvccScenario.MvccSimulation.constructor | models/mvcc.py:34-37 | the scenario starts from the given accounts, log, versions and clock |
| MvccScenario.MvccSimulation.Tick | models/mvcc.py:58 | each timestamp is later than the previous one |
| MvccScenario.MvccSimulation.Begin | models/mvcc.py:58-63 | starting a transaction appends a STARTED row with a fresh id and start time |
| MvccScenario.MvccSimulation.Commit | models/mvcc.py:128-132 | committing records a fresh commit time and COMMITTED status |
| MvccScenario.MvccSimulation.NewVersion | models/mvcc.py:113-119 | a version insert appends a version with a fresh timestamp |
| MvccScenario.MvccSimulation.Reset | models/mvcc.py:39-46 | the log and versions are cleared and Alice/Bob reset to 1000/2000 |
| MvccScenario.MvccSimulation.RunT2 | models/mvcc.py:82-146 | T2 starts after T1, writes Bob + 500 as one version and commits it to the account |
| MvccScenario.MvccSimulation.FinishT1 | models/mvcc.py:148-246 | T1, with the id it was given at its start, reads Bob's snapshot, writes Alice − 200 and snapshot Bob + 200 as versions, commits, and sets Bob to T2's balance + 200 |
| MvccScenario.MvccSimulation.RunSimulation | models/mvcc.py:22-272 | T1 sees Bob's initial 2000 rather than T2's 2500; Alice ends at 800 and Bob at 2700, so both transfers survive; two COMMITTED transactions and three ordered versions |
| RateLimiting.Truncate | app.py:42 | Python's int() of a float: the largest integer not above a non-negative value, the smallest not below a negative one |
| RateLimiting.PurgeKeeps | app.py:35-37 | after the clean-up exactly the clients whose last call is less than `period` old remain, with their lists unchanged |
| RateLimiting.RejectExactly | app.py:39-46 | a call is rejected iff the client called less than `period` ago and has `max_calls` or more calls recorded; a rejection records nothing |
| RateLimiting.RejectWait | app.py:40-42 | the reported wait is at least 1 and is the whole seconds left in the period plus one |
| RateLimiting.AdmitAppends | app.py:48-51 | an accepted call appends the current time to the client's list, creating it if absent, and leaves other clients alone |
| RateLimiting.StepKeepsBound | app.py:34-51 | every call keeps each list non-empty and at most `max(1, max_calls)` long |
| RateLimiting.RateLimiter.constructor | app.py:21-25 | a new limiter has no recorded calls and the given limits |
| RateLimiting.RateLimiter.Call | app.py:34-51 | the locked section decides and updates the call table as `Step` does, keeping the table's invariant |
| RateLimiting.OnePerThreeSeconds | app.py:59 | with 1 call per 3 s a first call is accepted; a second call δ s later is told to wait `int(3 - δ) + 1` s while δ < 3, and is accepted on a fresh list once δ ≥ 3 |

## Left out

- sqlite connections, cursors, `CREATE/DROP TABLE` and `commit()`: the tables are maps and sequences; the final `DROP TABLE` of `_simulate_mvcc` is its version table being discarded.
- The `version_store`, `read_timestamps` and `write_timestamps` dictionaries of `_simulate_mvcc`: they are filled but never read.
- Chart generation, base64 encoding and the graph picture (matplotlib, networkx drawing): rendering through foreign libraries.
- Wall-clock durations, `faster` and `difference_pct` of the benchmark: floating point over real time, with a possible division by zero.
- `time.sleep` and `datetime.now().isoformat()`: replaced by a strictly increasing clock; the timestamps of events that are only displayed are not modelled.
- Action text of timeline entries and step records: entries are constructors carrying the interpolated values; the "conflict"/"abort" substring test is decided per constructor, which holds while item and transaction names contain neither word.
- `TwoPhaseLocking.LockingRun.Simulate2PL`: a row the script names but the table lacks makes the source raise on `fetchone()`; the model requires every named row to exist.
- `VersionStore.Simulate`: when the version timestamps of two versions are equal, `ORDER BY timestamp DESC` leaves the order to sqlite; with a strictly increasing clock this never happens.
- `Deadlock.DeadlockDetection.Detect`: the cycles come from networkx's `simple_cycles`, a foreign call; they are a parameter. `Detect` and `Detected` accept any list of non-empty cycles and report whatever is listed. What that function promises (`CyclesOf`: every listed cycle is a simple cycle of the built edges, and every simple cycle is listed exactly once, starting at any of its members) is assumed only where the reported cycles are reasoned about (`ScriptDetection`, `OneScriptCycle`). Its enumeration order and the member each cycle starts at are not modelled.
- `Deadlock.DeadlockDetection.Detect`: a lock row whose resource has no `resources` row makes the source raise a TypeError on `fetchone()[0]` (models/deadlock.py:94-95); the model requires every row's resource to be named (`Named`).
- The `except nx.NetworkXNoCycle` branch of `detect_deadlocks`: `simple_cycles` returns an empty list rather than raising, so the branch is not reached.
- Resource rows, lock-row ids and the `locks`/`transactions`/`resources` echoes of the deadlock report: they are read back unchanged; the resource names are a parameter.
- `MvccScenario.MvccSimulation.RunSimulation`: states only the snapshot entry of the returned timeline, not the text of every entry; it requires Alice and Bob to exist, as the source assumes, and that account names are unique.
- Fractional balances of mvcc.py: balances are reset to whole numbers and changed by whole amounts, so they are integers.
- Flask routes, `jsonify`, `request.remote_addr`, `simulation_lock` and the limiter's `threading.Lock`: web and concurrency plumbing; the client id and current time are parameters of `RateLimiting.RateLimiter.Call`, and the wrapped endpoint it calls after admission is not part of this model.
- `RateLimiting.Step` and `RateLimiting.Truncate`: call times and the period are exact reals where the source uses `time.time()` floats; the float rounding of `now - last` and of `period - (now - last)` is not modelled, so a decision or a wait that a rounding step would flip at a boundary is not captured.
- Concurrent execution of transactions: the source runs everything sequentially, and so does the model.

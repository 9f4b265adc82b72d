# madkv consistency: a verified model

madkv is a key-value store project with a fuzzer that looks for consistency
violations, a reference server, a text protocol between them, and a P model that
classifies ordering graphs by consistency level. This project models the parts that
decide whether a concurrent history is consistent, and proves what they decide.

**The online checker (`Kv`, `Checker`, `FuzzRuns`, `Trimming`, `Verdicts`, `NoFalseAlarms`,
`FuzzLoop`).**
`History` keeps, per key and client, a trimmed deque of acknowledged updates and a
queue of responses that cannot be judged yet. `Checker` is that class, loops included,
proved against functions on its state and against `Passes`, the declarative meaning of a
check. `FuzzRuns` is the event machine of the fuzz loop against an arbitrary server, run
twice on the same events: with trimming and without. In `Trimming` the two agree on everything that is
still to be judged (`TrimmingRefinesKeepingAll`). `Verdicts` shows that a verdict never
changes after it can be taken, that the online checker reports exactly the first
response that an offline check of the complete history refuses, and what a verdict
means when there is one client. `NoFalseAlarms` composes the machine with a server
that executes each call atomically at any moment between call and collection, and
proves that no alarm is ever raised. `FuzzLoop` is `fuzz_test` itself, driving the
checker object and the service object: it passes, in two iterations per operation.

**The server (`Server`, `LockedServer`).** The handlers as methods over the map, with the
scan's iterator loop; then the same handlers cut into single steps under the mutex, for
any number of requests interleaving in any way. Every trace is linearizable.

**The classifier (`OrderingGraph`, `Dfs`, `DfsTermination`, `Replay`, `Classifier`,
`Linearization`, `Monitor`).** The coloured depth-first traversal, the pool check and the pairwise check
are proved to compute exactly the convergence and relationship levels, which are defined
on the graph alone. What the pools must be is stated on the operations: the last write to
a key, or its initial value, plus everything added since. "SO + RT" is proved equivalent to the existence of a linearization.
The monitor is proved to accept exactly the sequences of announcements that respect
real time.

*Where the traversal does not end.* A node that is pushed twice is popped once; when it
comes to the top again it is finished, and no branch pops it
(madkv/pmodel/PSpec/Consistency.p:95-110). `BlockingExample` gives the graph
0 -> {1, 2}, 1 -> {2}. `TerminationExact` gives the exact condition on closed acyclic graphs: the
loop ends for every push order if and only if no node reachable from the head has an
edge to a node `v` and also a path, avoiding `v`, to another predecessor of `v`.
Graphs in which every node has at most one successor, or at most one predecessor, meet it.

**The protocol and the workload (`Protocol`, `Ycsb`).** Printers, the call parser and the
response reader, down to characters and blank lines, with the words on the wire. A stream of responses reads back as
printed if and only if no Get or Swap value is "null" and no scan entry is ("SCAN", "END").

Two remarks on the source. The checker is approximate: the span of an update is in the
history when its own response is judged, so a Put that reports `found`, a Delete that
reports `not_found` and a Swap that reports its own value always pass
(`OwnWriteAlwaysPasses`). The comment at madkv/pmodel/PSpec/Consistency.p:69 says that SO needs exactly one
outgoing edge per node; the code, followed here, accepts at most one.

## Model

| member | source | states |
|---|---|---|
| `Kv.KeyLessTransitive` | madkv/runner/src/bin/fuzzer/history.rs:282-298 | The key order used by the range tests is transitive |
| `Kv.KeyLessTotal` | madkv/runner/src/bin/fuzzer/history.rs:282-298 | and total, so "not below start and not above end" is "within the range" |
| `Kv.KeyLessLexicographic` | madkv/kvstore/src/server.cpp:26-26 | A key is less than another iff after some common prefix it ends or has the smaller character |
| `Checker.History.constructor` | madkv/runner/src/bin/fuzzer/history.rs:39-64 | Every key of every client's pool, listed once or more, gets one deque per client holding the dummy Delete; queue empty, all `maxtr` 0 |
| `Checker.History.AddToQueue` | madkv/runner/src/bin/fuzzer/history.rs:67-76 | Appends the response and changes nothing else, under exactly the two debug assertions |
| `Checker.History.QueueLen` | madkv/runner/src/bin/fuzzer/history.rs:79-81 | The number of responses not yet judged |
| `Checker.History.ApplyUpdate` | madkv/runner/src/bin/fuzzer/history.rs:89-149 | Record, trim and drain in place give the state and outcome of the specification, including the unknown key and the early return at the first failing check |
| `Checker.MinQueued` | madkv/runner/src/bin/fuzzer/history.rs:111-116 | The least call timestamp queued, the 64-bit maximum for an empty queue |
| `Checker.TrimLoop` | madkv/runner/src/bin/fuzzer/history.rs:119-133 | The backward search and the pops from the front compute the trimmed deque |
| `Checker.History.CheckCall` | madkv/runner/src/bin/fuzzer/history.rs:152-196 | The dispatch returns true iff the response passes declaratively; Stop never does |
| `Checker.History.CheckKey` | madkv/runner/src/bin/fuzzer/history.rs:155-159 | False for a key outside the pool, else whether some client's deque explains the reported value |
| `Checker.CheckSpans` | madkv/runner/src/bin/fuzzer/history.rs:199-268 | The early-exit reverse scan (also lines 307-328) returns true iff some client has a span with the wanted value or presence, called before the response, with no later span of that client finished before the call |
| `Checker.PresenceExplained` | madkv/runner/src/bin/fuzzer/history.rs:209-218 | Presence written out: `found` needs a span with a value in some client's window, `not_found` one without (also lines 317-326) |
| `Checker.IndexEntries` | madkv/runner/src/bin/fuzzer/history.rs:280-289 | Accepts iff all keys are in range and distinct, and then yields the map of the entries |
| `Checker.EntriesMapIs` | madkv/runner/src/bin/fuzzer/history.rs:280-289 | For distinct entries the index maps a key to a value iff the pair was reported |
| `Checker.CheckScan` | madkv/runner/src/bin/fuzzer/history.rs:272-304 | True iff entries are in range and distinct and every tracked key in range is explained, whatever the iteration order |
| `FuzzRuns.DrainPops` | madkv/runner/src/bin/fuzzer/history.rs:135-143 | Exactly a prefix of the queue is popped, all older than the bound; all passed except the last one when it is reported; on success the next one is not older |
| `FuzzRuns.TrimCuts` | madkv/runner/src/bin/fuzzer/history.rs:119-133 | Trimming removes a prefix, never everything; if anything was cut, the first span left responded before both bounds, and no later one did |
| `FuzzRuns.StepInv` | madkv/runner/src/bin/fuzzer/history.rs:67-149 | Every event keeps deques non-empty and sequential, the queue ordered by response, `maxtr` an upper bound, and every call in flight later than its client's last update, hence all debug assertions |
| `FuzzRuns.RunInv` | madkv/runner/src/bin/fuzzer/main.rs:94-177 | So does every run, with or without trimming |
| `Trimming.OldIsCleared` | madkv/runner/src/bin/fuzzer/history.rs:122-128 | A span older than both bounds is older than the call of every response queued, in flight or still to come |
| `Trimming.TrimmedVerdict` | madkv/runner/src/bin/fuzzer/history.rs:109-133 | Trimmed and full histories give the same verdict on every pending response |
| `Trimming.StepSim` | madkv/runner/src/bin/fuzzer/history.rs:89-149 | One event, any server answer, keeps the trimmed and the full checker in simulation |
| `Trimming.RunSim` | madkv/runner/src/bin/fuzzer/history.rs:89-149 | The same events are possible in both, and the simulation holds at the end |
| `Trimming.TrimmingRefinesKeepingAll` | madkv/runner/src/bin/fuzzer/history.rs:109-133 | For all runs: same outcome, queue, `maxtr`, answers; same verdict on everything pending |
| `Verdicts.ExtendExplains` | madkv/runner/src/bin/fuzzer/history.rs:209-218 | Spans called after a response do not change whether a deque explains it |
| `Verdicts.RunGrows` | madkv/runner/src/bin/fuzzer/history.rs:104-110 | Over any run, deques only gain spans called after the minimum of `maxtr` at its start |
| `Verdicts.VerdictIsFinal` | madkv/runner/src/bin/fuzzer/history.rs:135-143 | Once every client has moved past a response, no continuation of the run changes its verdict |
| `Verdicts.RunSettles` | madkv/runner/src/bin/fuzzer/history.rs:135-143 | In every run the checked responses are a prefix of all responses, each checked once; the queue is the rest in order, with `ts_resp` at least the minimum of `maxtr` |
| `Verdicts.OnlineEqualsOffline` | madkv/runner/src/bin/fuzzer/history.rs:89-149 | The trimming fuzzer reports a violation iff some decidable response fails on the complete history, and reports the first such |
| `Verdicts.OwnWriteAlwaysPasses` | madkv/runner/src/bin/fuzzer/history.rs:199-244 | For any number of clients, a response that claims what its own update wrote is accepted at every later moment |
| `Verdicts.OwnSpanExact` | madkv/runner/src/bin/fuzzer/history.rs:209-218 | In a sequential history containing the operation itself, a report is accepted iff it matches the previous value or the operation's own |
| `Verdicts.SequentialExact` | madkv/runner/src/bin/fuzzer/history.rs:257-266 | In a sequential history without it, iff it matches the value of the last update before the call |
| `Verdicts.SingleClientExact` | madkv/runner/src/bin/fuzzer/history.rs:152-328 | Exact verdict on every kind of response when there is one client, in every run: iff conditions against the sequential state |
| `Verdicts.ValueBeforeIs` | madkv/runner/src/bin/fuzzer/history.rs:257-266 | The value before a moment is that of the last span ended before it |
| `Verdicts.SingleClientUpdates` | madkv/runner/src/bin/fuzzer/history.rs:199-244 | With one client a Put passes iff it reports found or the key was absent, a Delete (lines 307-328) iff it reports not found or the key was present, a Swap iff it reports its own value or the one before |
| `Verdicts.SingleClientScans` | madkv/runner/src/bin/fuzzer/history.rs:292-302 | With one client a passing scan lists each tracked key of the closed range iff it was bound, with its value |
| `NoFalseAlarms.SeenExplains` | madkv/runner/src/bin/fuzzer/history.rs:209-218 | The update last executed before a call was executed lies, once the response is decidable, inside some client's scanned window |
| `NoFalseAlarms.SeenPasses` | madkv/runner/src/bin/fuzzer/history.rs:152-196 | Every kind of response of an atomic server passes when it becomes decidable |
| `NoFalseAlarms.StepLinked` | madkv/runner/src/bin/fuzzer/main.rs:94-177 | Issue, atomic execution and collection each keep the link between store, in-flight replies, queue and history |
| `NoFalseAlarms.RunLinked` | madkv/runner/src/bin/fuzzer/main.rs:94-177 | The link holds in every reachable state |
| `NoFalseAlarms.NoAlarmEver` | madkv/runner/src/bin/fuzzer/history.rs:89-328 | For every client count, key pools and interleaving from an empty store, no violation, unknown key or stop is ever reported |
| `FuzzLoop.GenRandIndex` | madkv/runner/src/bin/fuzzer/random.rs:14-17 | Some index below the bound |
| `FuzzLoop.GenCallVsWait` | madkv/runner/src/bin/fuzzer/random.rs:26-34 | Whichever is chosen, a client with the wanted status exists; no call beyond the total |
| `FuzzLoop.GenRandClient` | madkv/runner/src/bin/fuzzer/random.rs:38-47 | A client with the wanted status, given the debug assertions |
| `FuzzLoop.GenRandKvCall` | madkv/runner/src/bin/fuzzer/random.rs:50-111 | A call on the client's own keys, never Stop, scans with start at most end |
| `FuzzLoop.CountPositive` | madkv/runner/src/bin/fuzzer/random.rs:26-34 | The number of flying clients is positive iff some client is flying |
| `FuzzLoop.CountUpdate` | madkv/runner/src/bin/fuzzer/main.rs:108-162 | Setting or clearing one client's bit changes the number of flying clients by one |
| `FuzzLoop.RunFacts` | madkv/runner/src/bin/fuzzer/main.rs:112-126 | In every reachable state replies belong to calls in flight and none is Stop, so the stop branch is not taken |
| `FuzzLoop.HarvestReady` | madkv/runner/src/bin/fuzzer/history.rs:68-102 | All debug assertions of the checker hold whenever a response is harvested |
| `FuzzLoop.HandIn` | madkv/runner/src/bin/fuzzer/main.rs:128-160 | Queueing the response and applying the update on the checker object gives the state and outcome of the harvest step |
| `FuzzLoop.HarvestResp` | madkv/runner/src/bin/fuzzer/main.rs:128-160 | Harvesting a reply of the service is a Collect step of the system and raises no alarm |
| `FuzzLoop.CallBranch` | madkv/runner/src/bin/fuzzer/main.rs:98-109 | The calling branch is one Issue step; one more client flies |
| `FuzzLoop.WaitBranch` | madkv/runner/src/bin/fuzzer/main.rs:111-163 | The waiting branch is a Collect step, after an Execute step if needed; one client fewer flies; no alarm |
| `FuzzLoop.Turn` | madkv/runner/src/bin/fuzzer/main.rs:94-177 | One iteration keeps: flying clients = called - waited, timestamp = called + waited, the objects agree with the system state |
| `FuzzLoop.FuzzTest` | madkv/runner/src/bin/fuzzer/main.rs:69-190 | Against the service the test passes after exactly 2 x total operations ticks, all responses collected, and returns the length of the queue |
| `Server.Bound` | madkv/kvstore/src/server.cpp:67-68 | lower_bound and upper_bound: the least key at or after, or after, the given one |
| `Server.KvStoreService.constructor` | madkv/kvstore/src/server.cpp:24-27 | The store starts empty |
| `Server.KvStoreService.Put` | madkv/kvstore/src/server.cpp:30-37 | Atomic specification of Put: the binding is set, `found` speaks of the old map |
| `Server.KvStoreService.Swap` | madkv/kvstore/src/server.cpp:39-51 | Atomic specification of Swap: the old value is answered, the new one stored |
| `Server.KvStoreService.Get` | madkv/kvstore/src/server.cpp:53-63 | Atomic specification of Get |
| `Server.KvStoreService.Scan` | madkv/kvstore/src/server.cpp:65-76 | The iterator loop ends and lists exactly the bindings in the inclusive range, strictly ascending |
| `Server.KvStoreService.Delete` | madkv/kvstore/src/server.cpp:78-88 | Atomic specification of Delete |
| `Server.KvStoreService.Handle` | madkv/kvstore/src/server.cpp:30-88 | Every request refines the atomic specification |
| `Server.RangeUnique` | madkv/kvstore/src/server.cpp:65-76 | The answer to a scan is determined by the store and the range |
| `Server.InclusiveIsHalfOpenPlusEnd` | madkv/refcli/src/main.rs:108-118 | The server's scan is the reference client's half-open scan plus the end key when it is bound |
| `LockedServer.SectionProgress` | madkv/kvstore/src/server.cpp:30-88 | Each small step of a handler inside the lock stays on the way to serving its call atomically |
| `LockedServer.ReleaseInv` | madkv/kvstore/src/server.cpp:30-88 | Releasing the lock appends the request to the linearization and keeps it legal and in real-time order |
| `LockedServer.RunInv` | madkv/kvstore/src/server.cpp:24-89 | In every reachable state the finished requests are linearized in lock order and the store is that of the sequence, up to what the lock holder has done |
| `LockedServer.ServiceLinearizable` | madkv/kvstore/src/server.cpp:24-89 | For any number of requests and any interleaving, the trace of invocations and returns is linearizable |
| `LockedServer.HolderCanStep` | madkv/kvstore/src/server.cpp:30-88 | The lock holder always has a next step; in particular the scan never dereferences or passes the end iterator |
| `Dfs.PushAllIs` | madkv/pmodel/PSpec/Consistency.p:74-93 | The loop over successors returns early iff one is missing or in progress; else it pushes the unvisited ones in order and records the parent of all |
| `Dfs.ReturnsInvalid` | madkv/pmodel/PSpec/Consistency.p:75-90 | An early return means the graph is not closed or has a cycle |
| `Dfs.SuccessorsFinished` | madkv/pmodel/PSpec/Consistency.p:96-99 | The assertion when a node is finished holds in every run |
| `Dfs.FinishedReach` | madkv/pmodel/PSpec/Consistency.p:97-104 | The set gathered for a finished node is its exact transitive closure |
| `Dfs.FinishedAcyclic` | madkv/pmodel/PSpec/Consistency.p:96-109 | A finished node is on no cycle |
| `Dfs.IterationInv` | madkv/pmodel/PSpec/Consistency.p:61-111 | Every iteration, in any push order, keeps the traversal invariant, or returns on an invalid graph |
| `Dfs.EmptyStack` | madkv/pmodel/PSpec/Consistency.p:61-111 | When the stack is empty, the finished nodes are exactly those reachable from the head |
| `Dfs.CountDecides` | madkv/pmodel/PSpec/Consistency.p:113-117 | The count equals the number of nodes iff the graph is closed, acyclic and reachable from the head |
| `DfsTermination.IterationProgress` | madkv/pmodel/PSpec/Consistency.p:61-111 | Each iteration decreases 2 x unvisited + in-progress by one, or changes nothing with a finished node on top |
| `DfsTermination.LoopEnds` | madkv/pmodel/PSpec/Consistency.p:61-111 | Without a shortcut, every push order ends within 2 x nodes iterations |
| `DfsTermination.ChainHasNoShortcut` | madkv/pmodel/PSpec/Consistency.p:61-111 | At most one successor everywhere, or at most one predecessor everywhere, excludes shortcuts |
| `DfsTermination.JamStays` | madkv/pmodel/PSpec/Consistency.p:95-110 | Once a node is stacked twice, or finished and still stacked, that stays so, hence the stack never empties |
| `DfsTermination.ShortcutBlocks` | madkv/pmodel/PSpec/Consistency.p:95-110 | With a shortcut some push order lets the loop run past any bound |
| `DfsTermination.TerminationExact` | madkv/pmodel/PSpec/Consistency.p:61-111 | On closed acyclic graphs the loop ends for every push order iff there is no shortcut |
| `DfsTermination.BlockingExample` | madkv/pmodel/PSpec/Consistency.p:95-110 | The concrete graph 0 -> {1, 2}, 1 -> {2} and runs of any length on it |
| `Replay.ValueAfterOne` | madkv/pmodel/PSpec/RefObjPool.p:70-87 | The value of a key (last write or initial, plus everything added since) after one more operation |
| `Replay.ApplyReplays` | madkv/pmodel/PSpec/RefObjPool.p:70-87 | Applying an operation to a replayed pool is replaying one more operation |
| `Replay.FollowingIsReplaying` | madkv/pmodel/PSpec/Consistency.p:126-133 | Pools follow one another along a walk iff each is the replay of the operations up to it |
| `Replay.ExplainedIsReplayed` | madkv/pmodel/PSpec/Consistency.p:119-139 | The pool check accepts a valid graph iff every node's pool is the replay of the operations on some walk from the head |
| `Replay.ConvergesIsReplayed` | madkv/pmodel/PSpec/Consistency.p:38-142 | C_SO or C_CPO iff the graph is valid and all pools are such replays |
| `Classifier.PushSuccessors` | madkv/pmodel/PSpec/Consistency.p:74-93 | The foreach as a loop in arbitrary order does what some enumeration of the successors does |
| `Classifier.GatherReach` | madkv/pmodel/PSpec/Consistency.p:98-104 | The nested foreach adds exactly the successors and what they reach |
| `Classifier.OnlyHeadHasNoParent` | madkv/pmodel/PSpec/Consistency.p:120-123 | The parent table is exact and the assertion that only the head has no parent holds |
| `Classifier.SomeParentFollows` | madkv/pmodel/PSpec/Consistency.p:126-133 | True iff some parent's pool leads to the node's pool; a failed key assertion is reported |
| `Classifier.CheckPools` | madkv/pmodel/PSpec/Consistency.p:120-139 | True iff every node but the head follows from a parent, in any order |
| `Classifier.Iterate` | madkv/pmodel/PSpec/Consistency.p:61-111 | One iteration as executed is one iteration of the traversal; an early return means an invalid graph |
| `Classifier.FinalVerdict` | madkv/pmodel/PSpec/Consistency.p:113-141 | After the loop the level is exact and the table is the transitive closure |
| `Classifier.ConvergenceConformity` | madkv/pmodel/PSpec/Consistency.p:38-142 | Whenever it returns: C_INVALID iff not closed, acyclic and reachable; else C_NPO iff some pool follows from no parent, equivalently is not the replay of the operations on a walk from the head; else C_SO iff at most one successor each; else C_CPO; and the table is exact. Without a shortcut it returns |
| `Classifier.ComparePair` | madkv/pmodel/PSpec/Consistency.p:156-187 | One pair: the level only drops past refuted levels and then fits the pair |
| `Classifier.RelationshipConformity` | madkv/pmodel/PSpec/Consistency.p:146-192 | The strongest of RT, CASL, FIFO that holds over all pairs, else NONE, for any key order |
| `Classifier.SatisfiedConstraints` | madkv/pmodel/PSpec/Consistency.p:195-210 | The pair of levels is a function of the graph alone |
| `Linearization.Extract` | madkv/pmodel/PSpec/Consistency.p:212-220 | From (C_SO, R_RT) to an order of all nodes, head first, each pool following from the previous, never against real time |
| `Linearization.LinearizableExact` | madkv/pmodel/PSpec/Consistency.p:212-220 | (C_SO, R_RT) iff such an order exists |
| `Linearization.LinearizationReplays` | madkv/pmodel/PSpec/Consistency.p:212-220 | A chain in real-time order is a linearization iff each pool is what the operations before it make of the first pool |
| `Linearization.AssertLinearizability` | madkv/pmodel/PSpec/Consistency.p:213-220 | All assertions hold iff the graph is linearizable; for linearizable graphs the traversal ends within 2 x nodes iterations |
| `Monitor.ServiceIsLinearizable.constructor` | madkv/pmodel/PSpec/RefObjPool.p:21-37 | The history is the one-node chain carrying the initial pool |
| `Monitor.ServiceIsLinearizable.AppendResponse` | madkv/pmodel/PSpec/RefObjPool.p:49-66 | The chain 0..n becomes the chain 0..n+1, the new node records the response, older nodes change only in `next` |
| `Monitor.ServiceIsLinearizable.ClientSeesResponse` | madkv/pmodel/PSpec/RefObjPool.p:39-46 | All assertions hold iff the key is in the pool and no recorded operation was requested after this response; the traversal always ends |
| `Monitor.HistoryLinearizes` | madkv/pmodel/PSpec/RefObjPool.p:39-66 | A chain history is linearizable iff its own order respects real time |
| `Monitor.HistoryPools` | madkv/pmodel/PSpec/RefObjPool.p:49-87 | After i responses each key holds the value of the last write to it, or the initial one, plus the sum of what was added since |
| `Monitor.MonitorRun` | madkv/pmodel/PSpec/RefObjPool.p:13-67 | The monitor stops at the first announcement that is about an unknown key or overtakes an earlier announced request; on well-timed announcements it never fails; each recorded pool is the replay of the responses up to it |
| `Ycsb.FirstFromIs` | madkv/runner/src/bin/bencher/ycsb.rs:164-166 | The index found splits the ordered keys into those before and those from the start key |
| `Ycsb.EmptyEnd` | madkv/runner/src/bin/bencher/ycsb.rs:160-161 | Before any insert the end key is "zzzzzzzz", which no key of up to eight characters, none above z, comes after |
| `Ycsb.RangeForwardExact` | madkv/runner/src/bin/bencher/ycsb.rs:158-170 | The end key is an inserted one; the range does not run backwards iff the start key is not past the last inserted key, which is otherwise the end key |
| `Ycsb.RangeCoversCount` | madkv/runner/src/bin/bencher/ycsb.rs:158-170 | It contains exactly min(count, number of inserted keys from start on) inserted keys |
| `Protocol.SegsLine` | madkv/runner/src/ioapi.rs:94-97 | Splitting a printed line gives back its tokens |
| `Protocol.NextPrinted` | madkv/runner/src/ioapi.rs:79-92 | The next non-blank line of a printed stream is the printed line, and exactly it is consumed |
| `Protocol.SplitsExact` | madkv/runner/src/ioapi.rs:94-97 | A character between two tokens splits them iff it is one of the 25 Unicode White_Space code points |
| `Protocol.BlankLinesIgnored` | madkv/runner/src/ioapi.rs:79-92 | Any white space and blank lines before a line change nothing for the call parser, the response reader and the entry loop |
| `Protocol.CallText` | madkv/runner/src/ioapi.rs:23-34 | The printed text of each of the six calls, with its word |
| `Protocol.CallLine` | madkv/refcli/src/main.rs:53-87 | Each of the six texts is parsed as its call and exactly it is consumed |
| `Protocol.CallAcceptedExact` | madkv/refcli/src/main.rs:53-87 | The lines accepted as calls: STOP; GET or DELETE and a token; PUT, SWAP or SCAN and two |
| `Protocol.FoundText` | madkv/refcli/src/main.rs:132-137 | The text of Put and Delete responses (also lines 173-178), with "found" and "not_found" |
| `Protocol.ValueText` | madkv/refcli/src/main.rs:139-159 | The text of Swap and Get responses, "null" standing for no value |
| `Protocol.ScanText` | madkv/refcli/src/main.rs:161-180 | The text of the first line of a scan, and of Stop |
| `Protocol.EntriesText` | madkv/refcli/src/main.rs:167-170 | The text of each entry line and of the end line |
| `Protocol.FoundLines` | madkv/runner/src/ioapi.rs:116-131 | PUT and DELETE (lines 186-201) lines: "found" is true, "not_found" false, any other word malformed |
| `Protocol.ValueLines` | madkv/runner/src/ioapi.rs:133-155 | SWAP and GET lines: "null" is no value, any other word is the value |
| `Protocol.RespAcceptedExact` | madkv/runner/src/ioapi.rs:115-206 | The lines accepted as responses |
| `Protocol.EntryLineExact` | madkv/runner/src/ioapi.rs:167-177 | Any line in a scan frame: the end, an entry of its first two tokens, or malformed |
| `Protocol.ExtraTokensIgnored` | madkv/runner/src/ioapi.rs:115-206 | Tokens after the third change nothing, for calls and for responses other than a scan's first line |
| `Protocol.CallsRoundTrip` | madkv/refcli/src/main.rs:53-87 | Printing any list of calls (madkv/runner/src/ioapi.rs:23-34) and parsing it gives the list and leaves the rest |
| `Protocol.EntriesReadBack` | madkv/runner/src/ioapi.rs:165-177 | Printed scan entries are read back in full and the frame is consumed, when none looks like the end line |
| `Protocol.EntriesCutShort` | madkv/runner/src/ioapi.rs:167-171 | With such an entry, reading stops there and loses entries |
| `Protocol.ReadsBack` | madkv/runner/src/ioapi.rs:108-207 | A printed response is read as itself when faithful and as another response when not |
| `Protocol.RespRoundTrip` | madkv/runner/src/ioapi.rs:108-207 | Round trip of one response iff no value "null" and no entry ("SCAN", "END") |
| `Protocol.StreamRoundTrip` | madkv/runner/src/ioapi.rs:108-207 | Round trip of a whole stream iff every response is faithful; exactly the printed lines are consumed |
| `Protocol.Reader.constructor` | madkv/runner/src/ioapi.rs:108-111 | The reader holds the unread input |
| `Protocol.Reader.ReadNextLine` | madkv/runner/src/ioapi.rs:79-92 | The buffer loop skips blank lines as specified |
| `Protocol.Reader.ReadScanEntries` | madkv/runner/src/ioapi.rs:165-177 | The entry loop reads up to the end line and leaves the rest |
| `Protocol.Reader.ReadResp` | madkv/runner/src/ioapi.rs:108-207 | from_read as executed, including every malformed line |
| `Protocol.WriteResponse` | madkv/refcli/src/main.rs:130-182 | The writing loop appends the printed form that the round trips and text lemmas are about |

## Left out

- Checker.History.ApplyUpdate: timestamps are unbounded naturals; 64-bit wrap-around of the logical clock is not modelled, and the 64-bit maximum appears only as the bound of an empty queue.
- Checker.CheckSpans: one loop stands for check_put, check_swap, check_get and check_delete, which differ only in comparing presence or value.
- FuzzLoop.FuzzTest: statistics, progress printing, the stopping of clients and I/O errors are not modelled; numOps is at least 1000 because the caller asserts it (madkv/runner/src/bin/fuzzer/main.rs:222), and smaller totals divide by zero in the progress line. Between two iterations the service may execute any received calls; interleavings inside an iteration are covered by `NoFalseAlarms.NoAlarmEver`.
- FuzzLoop.GenRandClient: the retry loop is a choice of any index with the wanted status; whether random retries end is not stated. All other random choices are arbitrary values too.
- Verdicts.OnlineEqualsOffline: the checker is not claimed to find every violation of linearizability, which it does not; what it accepts is stated as `Checker.Passes`.
- Server.KvStoreService.Scan: start at most end is required, since advancing past the end iterator is undefined in C++.
- LockedServer.ServiceLinearizable: fairness of the mutex and gRPC's thread pool are not modelled; that a waiting request is eventually served is not stated.
- Classifier.ConvergenceConformity: takes a bound on the iterations of its loop, for every bound, because some runs do not end; None stands for a run still going. A failed key assertion in ApplyOpToPool is reported as such; whether it is met before the loop breaks depends on the iteration order, so only that some key was missing is stated. The classifier never looks at `op.ret`, and nothing is claimed about it.
- Monitor.ServiceIsLinearizable.ClientSeesResponse: the pool the monitor computes is not claimed to be the service's pool, whose responses echo 0 as the value.
- Ycsb.RangeCoversCount: a scan count of 0, which underflows in the source, is excluded; the benchmark driver's token parsing is not modelled.
- Protocol.Reader.ReadNextLine: at the end of input the source reads for ever; the model answers that the input has run out. The error kinds Io and Parse are one "malformed" result.
- The P machines and test drivers in madkv/pmodel/PSrc and madkv/pmodel/PTest, and the other consistency assertions of Consistency.p, which compare the two levels with other constants.
- gRPC, protobuf, madkv/kvstore/src/client.cpp and madkv/runner/src/proc.rs: wrappers and process plumbing.
- The benchmark statistics, report generation, Justfiles, shell scripts and madkv/justmod/xtract.py.

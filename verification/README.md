# torx: checkers, scheduler and protocols, verified

torx runs tests of distributed systems on a pool of nodes and judges the histories they leave. This
project models the parts of it whose verdicts everything else rests on, and proves what they promise.

**linearize.** A history of calls and returns is linearizable if some order of every answered operation,
and of some of those in doubt, is legal from the model's initial state, keeps real time and leaves
each group together (`History`). `Search.CheckWithin` is the search of Wing and Gong with Lowe's
memoization, on the doubly linked list it lifts entries out of: an Ok or an Illegal verdict is right,
and with no limit one of the two is reached. The argument goes by completions: what can still be done
from a configuration (`Completion`, `CompletionTheory`), why skipping idle and interchangeable pending
operations loses nothing, and why a configuration met again is dead (`SearchTheory`). What it counts is
configurations that orders it tries lead to, all there are of them in an illegal history (`Explored`), so
a search is given up for its limit only where there are more. `Partition` and
`Locality` show that a history over independent objects is linearizable exactly when each part is, with
groups of concurrent operations of one object too (`Squeeze`), and `CrossGroups` that a group across objects
breaks it; `Minimize` shows that a minimized core is illegal, and minimal if no check was cut short. `Timeline` places
writes and snapshot reads by timestamp, and `Snapshots` shows that what is placed so is linearizable
exactly when some order of the writes by timestamp, with those in doubt where they could have landed,
gives every snapshot read.

**listappend.** `Checker.Check` runs the passes of the checker over transactions that append to lists
and read them whole. Each kind of anomaly is reported exactly when its condition holds, by name, and a cycle with
the transactions and edges it runs along (`Verdicts`); and nothing is
reported, with no transaction reading ahead of its own appends, exactly when some serial order of the
transactions that took effect gives every committed read (strictly so with Realtime). Behind it: the
iterative Tarjan algorithm (`Tarjan`, `Components`), shortest cycles by breadth-first search (`Bfs`,
`Cycles`, `Nonadjacent`), the classification of each component (`Classify`), the inference of
dependencies (`Inference`, `EdgePass`, `UnreadPass`), and the two halves of the theorem (`Serial`,
`NoFalseAlarm`). `ReadAhead` shows that the hypothesis on reading ahead cannot be dropped. The same two halves
serve snapshot isolation, whose runs give each transaction a snapshot and let the first committer win. `Levels`
says what it means that no kind a level forbids is reported, for each level; for this one, it and
`SnapshotIsolation` show that such a run is never reported for a kind the level forbids, and exactly which
histories are such runs, by way of orders of starts and commits that keep the dependencies (`SnapshotOrder`).
`UnreadRace` is a history that has no forbidden kind reported and is not one.

**logcheck.** `LogRuns` is an atomic append-only log as a state machine over the steps of clients and
server: sends, landings at rising offsets, deduplication, conditional accepts, refusals, answers that
arrive or do not, and reads of last entries. `LogCheck.Check` reports each kind exactly when the history
and the final log contradict each other so. It reports nothing exactly when some run of the log leaves that
history and that log: of every run it reports nothing (`LogSound`), and from a history and a log that it reports
nothing of such a run is made (`LogSources`, `LogSchedule`, `LogExact`). `LogReads.CheckReads` searches each key
within windows that every entry's landing lies in, so of every run it reports nothing either (`LogReadsSound`); and when neither check reports anything, and no
search was given up, some run of the log with its reads leaves the history, the log and the reads: each key
by itself is enough (`KeyReads`, `LogReadsExact`).

**The scheduler.** `Matching` is the augmenting-path assignment of nodes to specs, complete and with
a set of specs that has too few nodes whenever it fails; `Pools` the pool it allocates from; `Driver` and
`DriverInv` the scheduling loop with jobs finishing beside it: what every interleaving keeps, and that
every one ends; and `DriverRuns` what it does: which request is launched next, when it stops and what
stopping means, and what becomes of nodes and results.

**Protocols.** `Gate` is the gate between command starts and cgroup freezes: what each achieves, what every
interleaving keeps, and that no one waits for good. `ObjectStore` says what
each request to the object server does to what it holds (conditional writes as in sections 13.1.1 and
13.1.2 of RFC 9110), `CompareAndSwap` and `Uploads` what follows for every run of requests, and `ObjectServer` has the
handlers, which keep a record of the run, so that it follows for the server.

Shared helpers are in `Seqs`, `Options`, `Maps`, `Sorting` and `Reports`. Mutexes are modelled by making each
guarded body one step. Times are 64-bit integers; clocks, contexts and limits are parameters.

## Model

| member | source | states |
|---|---|---|
| `Search.CheckWithin` | linearize/linearize.go:170-335 | An Ok verdict means the history is linearizable, an Illegal one, given a sound `Same`, that it is not, with an order, its state and the operation stuck on, and no order the search tries is longer; Unknown comes only with an error, and the search ends. What it counts is a set of configurations that orders it tries lead to, of an illegal history all of them; it gives up for its limit only past it, and at once then. |
| `Search.Explore` | linearize/linearize.go:202-335 | The same of the search proper, on histories whose operations return no earlier than they are called; it ends because each push adds a new configuration. |
| `Explored.VisitCount` | linearize/linearize.go:439-464 | The configurations the cache holds are as many different sets of operations, with their states. |
| `Explored.TrailReaches` | linearize/linearize.go:282-297 | The configuration the search stands at is one that an order it tries leads to. |
| `Explored.CoveredIsAll` | linearize/linearize.go:305-335 | When it has nothing left to try, it has visited every such configuration. |
| `Completion.DropPending` | linearize/linearize.go:268-281 | Leaving a pending operation that changes nothing out of a completion leaves a completion. |
| `Completion.SwapSame` | linearize/linearize.go:178-200 | Two pending operations of the same effect may change places in a completion. |
| `Completion.SomeTriedMove` | linearize/linearize.go:261-303 | If a configuration can be completed at all, it can be by a move the search tries, despite the moves it skips. |
| `CompletionTheory.LinearizationsAreCompletions` | linearize/linearize.go:6-33 | The linearizations of a history are the completions of its initial configuration. |
| `CompletionTheory.DeadStart` | linearize/linearize.go:326-335 | A history whose initial configuration cannot be completed is not linearizable. |
| `SearchTheory.CachedDoomed` | linearize/linearize.go:237-258 | A configuration the cache already holds, once left, cannot be completed. |
| `SearchTheory.StuckDoomed` | linearize/linearize.go:305-335 | When the first entry left in the list is a return, nothing that could come next has been passed over. |
| `Bitset.MembersAfterSet` | linearize/linearize.go:420-427 | Setting a bit adds its number to the set and nothing else. |
| `Bitset.ClearUndoesSet` | linearize/linearize.go:425-426 | Clearing a bit just set gives back the words as they were. |
| `ConfigCache.Added` | linearize/linearize.go:439-464 | A configuration is new exactly when the cache did not hold it, whatever the hash, and held afterwards with the rest. |
| `Groups.GroupSizes` | linearize/linearize.go:202-218 | Counts the answered operations of each group. |
| `Groups.EnterTracks` | linearize/linearize.go:237-258 | The group begun and its count left say which operations may come next, after a push. |
| `Groups.LeaveTracks` | linearize/linearize.go:319-333 | And again after the push is undone. |
| `Afters.After` | linearize/linearize.go:178-200 | Chains each pending operation to the last before it, by call and then by place, that `Same` accepts, and to none exactly when there is none. |
| `Sorting.SortStable` | linearize/linearize.go:191-191 | The sort keeps the order of what ties. |
| `EntryList.Lift` | linearize/linearize.go:381-393 | The linked list without a call and its return: the rest in order. |
| `EntryList.Unlift` | linearize/linearize.go:394-405 | Puts back what Lift took out, restoring the list exactly. |
| `Layout.Link` | linearize/linearize.go:337-379 | Links the calls and returns in time order, a call before a return at the same time, each answered call with its return. |
| `Layout.LaidWithout` | linearize/linearize.go:337-393 | Removing an operation's entries leaves the list laid out for the others. |
| `Partition.Partition` | linearize/linearize.go:407-418 | Each part is the operations of its key, in order, and every operation is in one. |
| `Locality.LinearizableByPart` | linearize/linearize.go:407-411 | With a model that is a product by key, and groups each of concurrent operations of one key, a history is linearizable exactly when each part is. |
| `Locality.WholeToPart` | linearize/linearize.go:407-411 | Each part of a linearizable history is linearizable, whatever the groups. |
| `Squeeze.SqueezedRealTime` | linearize/linearize.go:60-65 | An order that keeps groups of concurrent operations together keeps real time still when each operation is given the times all its group shares. |
| `CrossGroups.PartsDoNotDecide` | linearize/linearize.go:407-411 | A history with a group across two keys each part of which is linearizable, and which is not itself. |
| `Minimize.IllegalKeeping` | linearize/linearize.go:519-545 | Says a history is illegal, with everything outside a set weakened, only if it is; and, unless the check was cut short, whenever it is. |
| `Minimize.MergeElements` | linearize/linearize.go:592-598 | The list joined has the elements of both. |
| `Minimize.MergeIncreasing` | linearize/linearize.go:592-598 | The list joined is increasing when the two share nothing. |
| `Minimize.Pass` | linearize/linearize.go:575-590 | One sweep keeps the history illegal, shrinks the set if it removed anything, and at chunk size one, if it removed nothing and nothing was cut short, leaves it minimal. |
| `Minimize.Ddmin` | linearize/linearize.go:566-590 | Ends, with a subset that is still illegal and, if nothing was cut short, from which nothing more can be weakened. |
| `Minimize.Minimize` | linearize/linearize.go:484-565 | The core is illegal with all else weakened, whatever was cut short; if nothing was, under monotone weakening no one more of its operations can be weakened, though droppables were shrunk first; a history that is not illegal is returned whole; and a check is cut short only by its context, or where some weakened history has more configurations than 2^20 and than a hundred times those of the whole. |
| `Timeline.Accepted` | linearize/timeline.go:45-81 | The timestamps accepted are exactly those from the base to MaxOffset past it, placed without overflow and below Pending. |
| `Timeline.WriteBeforeRead` | linearize/timeline.go:49-62 | A write is placed before a read exactly when the snapshot holds it, and after it otherwise. |
| `Timeline.ReadSeesSnapshot` | linearize/timeline.go:8-26 | In every linearization a read comes after just the answered writes its snapshot holds. |
| `Timeline.WritesInOrder` | linearize/timeline.go:49-53 | In every linearization answered writes come in timestamp order. |
| `Timeline.SnapshotExact` | linearize/timeline.go:8-36 | In every linearization the answered writes ahead of a read are those its snapshot holds, all of them, in timestamp order. |
| `Snapshots.OneState` | linearize/timeline.go:27-31 | In every linearization the reads of a snapshot, given one group, have the same writes ahead of them, those in doubt too, and see one state. |
| `Snapshots.LinearizableByTimestamp` | linearize/timeline.go:8-31 | A history on a timeline is linearizable exactly when it is serializable by timestamp: each snapshot sees all answered writes it holds and no other, and of those in doubt some that could have got such a timestamp, a later snapshot no fewer. |
| `Components.Sccs` | listappend/listappend.go:644-713 | Ends, with exactly the strongly connected components of more than one vertex, each once, for every graph and filter. |
| `Bfs.Search` | listappend/listappend.go:715-751 | A walk found is accepted and passes through no vertex twice; there is no shorter walk, and if none is found no walk at all, unless one no longer than it was turned down. |
| `Cycles.Path` | listappend/listappend.go:715-751 | A shortest path of edges of the kinds allowed within a component, or none. |
| `Cycles.CycleWithin` | listappend/listappend.go:753-768 | A simple cycle of edges of the kinds allowed, whenever the component has one. |
| `Cycles.GSingle` | listappend/listappend.go:770-786 | A simple cycle with exactly one rw edge, whenever there is a cycle with one. |
| `Nonadjacent.FindNonadjacent` | listappend/listappend.go:788-838 | A simple cycle with rw edges and no two in a row, whenever there is one and none without rw. |
| `Classify.ClassifyComponent` | listappend/listappend.go:577-606 | Only G2 is reported of a component exactly when every cycle has two rw edges in a row and no lost update lies in it; G0, G1c and G-single exactly when there is such a cycle, and G-nonadjacent too where every cycle has an rw edge; each witness is a simple cycle of edges of the pattern its kind names. |
| `Classify.PairWithin` | listappend/listappend.go:616-625 | A lost update that lies within the component, unless none does. |
| `Classify.FindCycles` | listappend/listappend.go:570-614 | Reports each component in turn and then the lost updates no component holds together; nothing is reported exactly when the graph is acyclic and there is no lost update. |
| `HistoryPass.AppendsOf` | listappend/listappend.go:185-205 | The writer of each value and the appends of each transaction are those of the history; duplicate is reported exactly when a value has two writers. |
| `Passes.InternalOf` | listappend/listappend.go:207-242 | Reports internal exactly when a read lacks its own appends, nonrepeatable exactly when two reads show others' differently. |
| `Passes.OrderOfKey` | listappend/listappend.go:276-299 | The version order is a longest read; reports duplicate exactly when a read repeats a value, incompatible-order exactly when one is no beginning of it. |
| `HistoryPass.InferOrders` | listappend/listappend.go:260-300 | The same for every key read. |
| `HistoryPass.Effects` | listappend/listappend.go:302-320 | Exactly the committed transactions took effect, and those in doubt that wrote a version of some key. |
| `ReadPass.CheckAborted` | listappend/listappend.go:348-363 | Reports G1a exactly when a value not yet checked is unknown or an aborted transaction's. |
| `ReadPass.CheckMade` | listappend/listappend.go:364-383 | Marks exactly the other transactions whose appends a list shows out of order or without those before, and reports incompatible-order of each not marked yet. |
| `ReadPass.CheckIntermediate` | listappend/listappend.go:384-403 | Marks the transaction in an intermediate append of which a list ends, but for the reader's own appends, and reports G1b of it if it was not marked yet. |
| `ReadPass.CheckLost` | listappend/listappend.go:404-418 | Marks exactly the appends committed before the transaction began that a list lacks, and reports lost of each not marked yet. |
| `ReadPass.ReadsOf` | listappend/listappend.go:328-421 | Each kind is reported of a transaction's reads exactly when some read of it calls for it, though each thing is reported once. |
| `EdgePass.ExternalReads` | listappend/listappend.go:244-258 | Exactly the reads ahead of all the transaction's own appends to their key. |
| `EdgePass.AllVersionEdges` | listappend/listappend.go:434-442 | A ww edge from the writer of each version to the writer of the next, and no others. |
| `EdgePass.AllEdgesOfReads` | listappend/listappend.go:443-474 | A wr edge from the writer of what was read, a rw edge to the writer of the next version, and who read a key whole or in part. |
| `UnreadPass.AllEdgesOfUnread` | listappend/listappend.go:475-509 | The ww and rw edges into the writers of appends that took effect and no read saw, and the list of those writers. |
| `UnreadPass.FindPairs` | listappend/listappend.go:510-527 | Every pair that read a key and appended to it unread, once. |
| `UnreadPass.AllRealtimeEdges` | listappend/listappend.go:528-558 | An edge from each committed transaction to those that began after it returned, up to the first return among the committed ones. |
| `Strict.RealtimeIsReach` | listappend/listappend.go:528-558 | Reaching along those few edges is the whole order "returned before the other began". |
| `Topological.TopologicalOrder` | listappend/listappend.go:22-28 | An acyclic graph has an order that puts each transaction before those it reaches. |
| `Serial.ShownBefore` | listappend/listappend.go:434-474 | What a read shows of others' was appended by transactions its own sees, in any order that keeps the dependencies. |
| `Serial.NotShownAfter` | listappend/listappend.go:455-509 | Whoever appended what a read does not show is not among those its transaction sees. |
| `Serial.CleanIsSerial` | listappend/listappend.go:167-181 | In any order that keeps the inferred dependencies, every committed read of a clean history is what those before it appended. |
| `Serial.CleanIsSnapshot` | listappend/listappend.go:22-28 | In any order of starts and commits that keeps them, and in which of two writers of what no read saw one sees the other, every committed read is its snapshot's and the first committer wins. |
| `NoFalseAlarm.DepForward` | listappend/listappend.go:425-509 | A run on snapshots keeps every dependency inferred: ww and wr from a commit to a later start, rw from a start to a later commit. |
| `NoFalseAlarm.SnapshotNotIntermediate` | listappend/listappend.go:384-403 | A run on snapshots, and so a serial one, has no read of an intermediate state. |
| `NoFalseAlarm.SnapshotNoLostUpdate` | listappend/listappend.go:510-527 | Nor has it a lost update among unread appends. |
| `Txns.SerialIsSnapshot` | listappend/listappend.go:22-28 | A serial run is a run on snapshots in which each sees all before it. |
| `Serializability.SilenceIsSerializability` | listappend/listappend.go:167-181 | With unique values: nothing to report and no reading ahead, exactly when the history is serializable, strictly if real time counts. |
| `SnapshotOrder.KeptAdjacent` | listappend/listappend.go:23-26 | In a graph whose edges some order of starts and commits keeps, every cycle has two rw edges in a row. |
| `SnapshotOrder.SnapshotOrderOf` | listappend/listappend.go:23-26 | And a graph in which every cycle has two rw edges in a row has such an order. |
| `SnapshotIsolation.SnapshotIff` | listappend/listappend.go:22-28 | With unique values a history runs on snapshots exactly when its reads give nothing to report, none reads ahead, and some choice of who came first, of each two writers of what no read saw, leaves two rw edges in a row on every cycle. |
| `SnapshotIsolation.SnapshotNoFalseAlarm` | listappend/listappend.go:23-26 | A history that runs on snapshots has no lost update and two rw edges in a row on every cycle. |
| `SnapshotIsolation.SilenceIsSnapshotIsolation` | listappend/listappend.go:23-26 | Where no two transactions appended to one key what no read saw, and none reads ahead, that and faultless reads make a run on snapshots. |
| `Verdicts.SaidAll` | listappend/listappend.go:570-614 | The kinds reported of the graph, by name: G0 exactly when there is a cycle of ww edges only; G1c, when some component has a cycle without rw edges and none such; G-single, when there is a cycle with one rw edge or a lost update; G2, when some component has only cycles with two rw edges in a row and no lost update. |
| `Verdicts.SaidWitnessed` | listappend/listappend.go:627-641 | Each report on the graph names the transactions and edges of a simple cycle of the pattern its kind stands for, in order, or of a lost update. |
| `Levels.SerializableLevel` | listappend/listappend.go:122-135 | With unique values, no kind that serializability forbids is reported, and none reads ahead, exactly when the history is serializable; and the same of strict serializability with Realtime. |
| `Levels.ReadCommittedLevel` | listappend/listappend.go:122-135 | No kind that read committed forbids is reported exactly when every read is of committed appends, whole and in order and with its own, and no cycle is without an rw edge. |
| `Levels.GraphG2` | listappend/listappend.go:570-614 | Only G2 is reported of the graph exactly when every cycle of it has two rw edges in a row and there is no lost update. |
| `Levels.SnapshotLevel` | listappend/listappend.go:122-135 | What Check returns of a run on snapshots has no kind the level forbids; and where no two transactions appended to one key what no read saw, a history with no such kind reported, and no reading ahead, is such a run. |
| `UnreadRace.UnreadAppendsSlip` | listappend/listappend.go:19-28 | Two transactions that miss each other's appends and both append to a key no read looks at have no forbidden kind reported, and are not a run on snapshots. |
| `Checker.Check` | listappend/listappend.go:166-181 | The kinds reported are, by name, exactly those called for; each report of a cycle shows one of its pattern; and with unique values silence without reading ahead is serializability. |
| `Checker.Checker.Appends` | listappend/listappend.go:185-205 | Records writers and appends of all transactions; duplicate is added exactly when two append a value to a key. |
| `Checker.Checker.Internal` | listappend/listappend.go:214-242 | Adds internal and nonrepeatable exactly when some committed transaction calls for them. |
| `Checker.Checker.Orders` | listappend/listappend.go:262-300 | Sets the version orders; adds duplicate and incompatible-order exactly when called for. |
| `Checker.Checker.TakeEffect` | listappend/listappend.go:308-320 | Sets which transactions took effect. |
| `Checker.Checker.Reads` | listappend/listappend.go:328-421 | Adds G1a, incompatible-order, G1b and lost exactly when some committed read calls for them. |
| `Checker.Checker.Edges` | listappend/listappend.go:423-558 | The graph's edges are exactly the dependencies, without loops, and the pairs exactly the lost updates. |
| `Checker.Checker.FindAll` | listappend/listappend.go:570-641 | Adds the reports on the graph, in order, each with a witness: transactions by ID and edges by name. |
| `ReadAhead.ReadingAheadSlips` | listappend/listappend.go:214-242 | A transaction that reads its own later append gives nothing to report and is not serializable. |
| `Logs.MakeIndex` | logcheck/logcheck.go:134-157 | The first entry at each offset, the offsets of each value and key in order, and a collision reported exactly when two entries share an offset. |
| `Logs.BeforeMeans` | logcheck/logcheck.go:159-167 | The greatest offset below the one given, or 0. |
| `Sends.BinarySearch` | logcheck/logcheck.go:189-189 | The place of an offset in a sorted list. |
| `Sends.Calls` | logcheck/logcheck.go:169-220 | The earliest call of the attempts acked at a copy; for the others, in order, the calls left over, in order. |
| `SendBound.InOrder` | logcheck/logcheck.go:206-218 | With more than j values no greater than a limit, the j-th in order is no greater. |
| `SendBound.SentBeforeLanding` | logcheck/logcheck.go:169-220 | The bound is no later than the copy's landing, whichever attempts placed the copies. |
| `LogCheck.CheckAcks` | logcheck/logcheck.go:256-276 | Reports lost and ack-mismatch exactly when an ack named nothing, a place named twice, or something else. |
| `LogCheck.CheckCopies` | logcheck/logcheck.go:277-304 | Reports misfiled and condition exactly when a copy is under another key or after another entry. |
| `LogCheck.CheckAppend` | logcheck/logcheck.go:236-304 | Each kind is reported of an append exactly when called for, failed-visible and duplicate among them. |
| `LogCheck.RealtimeOrder` | logcheck/logcheck.go:316-368 | Reports realtime-order exactly when a copy lies below one acked before it was sent. |
| `LogCheck.Check` | logcheck/logcheck.go:230-314 | The kinds reported are, by name, exactly those in which log and history contradict each other. |
| `LogRuns.OffsetsRise` | logcheck/logcheck.go:22-28 | In every run of the log offsets rise in the order of landing. |
| `LogRuns.AckNamesLanding` | logcheck/logcheck.go:169-175 | An ack names where the log put the append, by then; without an idempotency key, where it put that attempt. |
| `LogSound.NoFalseAlarms` | logcheck/logcheck.go:9-41 | For every run of the atomic log there is nothing for Check to report. |
| `LogSound.CheckIsSilent` | logcheck/logcheck.go:9-41 | What Check returns of a history and log of any run is empty. |
| `LogSources.EnoughLeft` | logcheck/logcheck.go:236-276 | When an append gives nothing to report there are attempts left over for all the copies no ack placed. |
| `LogSources.MakerSent` | logcheck/logcheck.go:169-220 | The bound on when a copy was sent is then the call of an attempt that may have made it, a different one for each copy. |
| `LogSchedule.RunOf` | logcheck/logcheck.go:1-28 | From such attempts, with landings in the order of offsets, by the acks, and between the reads that missed an entry and those that saw it, a run of the log is made that leaves the history, the log and the reads. |
| `LogExact.SilentHasRun` | logcheck/logcheck.go:9-28 | When Check returns nothing, and no ack came before its call, some run of the log leaves that history and that log. |
| `LogExact.SilentIffRun` | logcheck/logcheck.go:9-28 | Check returns nothing, and no ack came before its call, exactly when some run of the log leaves that history and that log. |
| `LogWindows.Windows` | logcheck/logcheck.go:474-537 | Each entry's window is the latest call at or before it and the earliest sight at or after it, or its own bounds where those cross. |
| `LogReads.CheckReads` | logcheck/logcheck.go:392-468 | Reports each dirty read, and each key exactly when its history is not linearizable, but for keys whose search was given up, for an ill-timed history, the context or more configurations than the limit; with unique values that history is the key's appended entries in their windows and its reads of them. |
| `LogReadsSound.LandedInWindow` | logcheck/logcheck.go:474-484 | For every run of the log each entry landed in its window. |
| `KeyOrder.InstantsLinearize` | logcheck/logcheck.go:450-458 | Operations with instants of their own, in which each read saw the last entry landed, are linearizable in the order of the instants. |
| `LogReadsSound.NoFalseReadAlarms` | logcheck/logcheck.go:392-402 | For every run of the log and its reads there is no dirty read and no key that is not linearizable. |
| `LogReadsSound.CheckReadsIsSilent` | logcheck/logcheck.go:392-405 | What CheckReads returns of any run is empty, and with no limit no key is left unfinished. |
| `KeyReads.ReadBetween` | logcheck/logcheck.go:450-458 | In every linearization of a key's history a read comes after the landing of the entry it returned and before that of every later one. |
| `LogReadsExact.WindowIs` | logcheck/logcheck.go:500-537 | When nothing is reported, each entry's window is from the latest call at or below it to the earliest ack or sight at or above it. |
| `LogReadsExact.SilenceHasRun` | logcheck/logcheck.go:392-405 | When neither check reports anything, no ack came before its call and no search was given up, some run of the log leaves the history, the log and the reads. |
| `LogReadsExact.SilenceIffRun` | logcheck/logcheck.go:392-405 | Where no search was given up, neither check reports anything, and no ack came before its call, exactly when some run of the log with its reads leaves them. |
| `Matching.AugmentSpec` | pool.go:216-236 | Matches the spec, keeping all others matched; or changes nothing, and no spec that holds a candidate seen can reach one not seen. |
| `Matching.MatchSpecs` | pool.go:178-214 | An assignment of distinct satisfying candidates, in spec order, exactly when one exists; and otherwise specs with too few candidates between them. |
| `Matching.Stuck` | pool.go:216-236 | A failed augmentation gives such a set of specs. |
| `Matching.NoneFeasible` | pool.go:178-187 | With too few candidates for some specs no assignment exists. |
| `Matching.OrderIsAll` | pool.go:238-251 | The order of constraint is all specs, each once. |
| `Matching.OrderByScore` | pool.go:238-251 | It is by falling score, and of one score in the order given. |
| `Pools.FeasibleMeans` | pool.go:178-187 | Whether specs can be served depends on which nodes there are, not on their order. |
| `Pools.Pool.Allocate` | pool.go:57-85 | Takes nodes that serve the specs from the free ones whenever some do, and otherwise changes nothing; nodes stay parted between free, in use and evicted. |
| `Pools.Pool.CanAllocate` | pool.go:87-94 | Whether the free nodes can serve the specs. |
| `Pools.Pool.CanEverFit` | pool.go:96-109 | Whether all nodes not evicted could. |
| `Pools.Pool.Free` | pool.go:111-126 | Gives nodes back, once. |
| `Pools.Pool.Evict` | pool.go:128-147 | Takes nodes out of circulation, once. |
| `DriverInv.StepHolds` | driver.go:160-236 | Every step of the loop, of a job's end and of cancellation keeps the invariant. |
| `DriverInv.AlwaysParted` | driver.go:192-290 | In every run nodes are parted between free, evicted and jobs, which share none; no more than MaxParallel run; no request has two results. |
| `DriverInv.AllocateNeverFails` | driver.go:193-212 | Allocation just after the scan found room succeeds, whatever finished in between. |
| `DriverInv.LeftCannotFit` | driver.go:225-236 | Requests left with scheduling neither stopped nor cancelled cannot be served by all the nodes left. |
| `DriverInv.NoneStranded` | driver.go:178-223 | With none evicted and scheduling neither stopped nor cancelled, every request that fits the pool was launched. |
| `DriverInv.OneResultEach` | driver.go:160-236 | When scheduling was never stopped, every request ends with one result and only one. |
| `DriverRuns.StopsExactly` | driver.go:217-223 | In every run scheduling has stopped exactly when a job that was launched has failed under ExitFirst, or a job was heard of since the context was cancelled. |
| `DriverRuns.StopsForGood` | driver.go:192-236 | Once it has, nothing more is launched and no request left waiting gets a result. |
| `DriverRuns.CancelledLaunches` | driver.go:193-216 | Once the context is cancelled one job more is launched at most, and only if the loop was deciding on it. |
| `DriverRuns.JobsRight` | driver.go:192-290 | In every run a job is launched on nodes that serve its specs, the nodes evicted are those of jobs that ended dirty, and a request not launched can only have failed. |
| `DriverRuns.ResultReported` | driver.go:217-219 | The result recorded of a job is the one it ended with. |
| `DriverRuns.LargestThatFits` | driver.go:184-201 | The request launched is the largest that fits the free nodes, and of those the first given, unless nodes came free since the loop last heard of a job. |
| `DriverRuns.NoneHeldBack` | driver.go:193-216 | When the loop waits, with every finished job heard of and scheduling going on, MaxParallel jobs run or no request waiting fits the free nodes. |
| `DriverInv.NeverStuck` | driver.go:192-223 | Until it has ended, the loop or a job can always take a step. |
| `DriverInv.WorkBringsEnd` | driver.go:192-236 | Each step of the loop and each end of a job lowers one measure, and cancelling does not raise it. |
| `DriverInv.Ends` | driver.go:160-236 | In every run, of n requests that can run, there are at most (2n + 1)(n + 7) such steps, so every run comes to its end. |
| `Gate.StepHolds` | cgroup_linux.go:231-315 | Every step of entering, leaving, freezing and thawing, with writes that fail or not, keeps the invariant. |
| `Gate.GateSafe` | cgroup_linux.go:203-315 | In every interleaving the kernel's flag is set only with the gate closed and no start in flight; no channel is closed twice; and a waiter waits on the channel of the freeze in force, or on one already closed. |
| `Gate.Achieved` | cgroup_linux.go:266-315 | In every run a thaw whose write succeeds, and a failed freeze that had closed the gate, leave it open, the flag clear and every channel waited on closed; a freeze whose write succeeds leaves it shut, the flag set and no start in flight; other failures change nothing. |
| `Gate.FreezeCloses` | cgroup_linux.go:262-272 | A freeze closes the gate, if none has, before it waits. |
| `Gate.ClosedIsFrozen` | cgroup_linux.go:259-315 | While no freeze is waiting for starts the gate is closed exactly while the flag is set. |
| `Gate.ThawFrees` | cgroup_linux.go:231-257 | Whoever waited when a thaw succeeded can go on. |
| `Gate.OpenLetsIn` | cgroup_linux.go:231-257 | Through an open gate whoever waits or comes can get in. |
| `Gate.ClosedKeepsOut` | cgroup_linux.go:231-257 | Through a closed one none does, and waits on a channel not yet closed. |
| `Gate.NeverStuck` | cgroup_linux.go:259-315 | Whoever freezes or thaws can go on, or waits for starts in flight that can leave; and when no one does, anyone can begin to. |
| `Gate.DrainingOnlyEmpties` | cgroup_linux.go:259-281 | While a freeze waits for starts, none comes in and no thaw opens the gate. |
| `ETags.OneNumberEach` | objstore/objstore.go:755-759 | Different numbers have different ETags. |
| `ETags.ETagMatch` | objstore/objstore.go:735-743 | Whether some item of the header is *, the ETag, or the ETag without its quotes. |
| `ETags.MatchesOne` | objstore/objstore.go:735-743 | A header of one item other than * matches one ETag at most. |
| `ETags.ETagSentBack` | objstore/objstore.go:735-762 | An ETag sent back is such a header, and matches itself. |
| `ObjectStore.HeldMeans` | objstore/objstore.go:960-968 | The keys a delete answers with are those of its list the bucket has, each once. |
| `ObjectServer.Server.Check` | objstore/objstore.go:688-712 | None exactly when If-None-Match, if given, is * and the key is free, and If-Match, if given, names the ETag it holds; otherwise NotImplemented, NoSuchKey or PreconditionFailed, each when it should be. |
| `ObjectServer.Server.CheckSource` | objstore/objstore.go:714-733 | None exactly when a copy's conditions on its source hold. |
| `ObjectServer.Server.Put` | objstore/objstore.go:764-786 | Applied exactly when the bucket is there and the conditions hold; the key then holds the data under the reply's ETag and every other key what it held; a refusal changes nothing. And against all requests the server has served: a new ETag, no second write on one If-Match, none on If-None-Match over an object not deleted. |
| `ObjectServer.Server.Copy` | objstore/objstore.go:788-830 | The same of a copy, which needs its source and the conditions on it too, and stores what the source held. |
| `ObjectServer.Server.Join` | objstore/objstore.go:1127-1142 | The parts, and their data joined, exactly when each is there with its ETag and their numbers rise. |
| `ObjectServer.Server.Complete` | objstore/objstore.go:1107-1160 | The same as of a put of the parts joined, which needs the upload and sound parts too; the upload is then gone. |
| `ObjectServer.Server.Delete` | objstore/objstore.go:934-968 | The keys listed hold nothing afterwards, every other key what it held, and the reply names what was removed. |
| `ObjectServer.Server.Make` | objstore/objstore.go:645-655 | The bucket is there afterwards and every object as it was. |
| `ObjectServer.Server.Drop` | objstore/objstore.go:662-673 | Removes the bucket exactly when it is there and empty; every object is as it was. |
| `ObjectServer.Server.Begin` | objstore/objstore.go:1074-1087 | Opens an empty upload under a number no upload has. |
| `ObjectServer.Server.PutPart` | objstore/objstore.go:1089-1105 | Sets one part of the upload named, if the bucket, the key and the number are right. |
| `CompareAndSwap.HoldsLatest` | objstore/objstore.go:764-786 | In every run a key holds just what the latest write to it that took effect stored, if it was not deleted since. |
| `CompareAndSwap.RunSwaps` | objstore/objstore.go:688-712 | In every run each write that takes effect compares and swaps against all before it. |
| `CompareAndSwap.EffectExactly` | objstore/objstore.go:688-733 | In every run a put takes effect exactly when its bucket is there and, of the latest write to the key not deleted since, If-None-Match: * asks for none and If-Match names its ETag; and a copy when, beside that, the latest write to its source got an ETag its If-Match names and its If-None-Match does not. |
| `CompareAndSwap.CopiesLatest` | objstore/objstore.go:788-830 | A copy that takes effect stores what the latest write to its source did. |
| `Uploads.UploadHolds` | objstore/objstore.go:1074-1105 | In every run an upload is there from its beginning until it is completed or given up, and holds the latest of each part put since. |
| `Uploads.WasBegun` | objstore/objstore.go:1074-1087 | Every upload there is was begun, for its bucket and key. |
| `Uploads.CompleteExactly` | objstore/objstore.go:1107-1160 | In every run completing an upload takes effect exactly when the bucket is there, the conditions hold, and the upload is open and has the parts listed, in rising numbers and with the ETags given, as they were put last; and the key then holds those joined. |
| `Uploads.BucketThere` | objstore/objstore.go:645-673 | In every run a bucket is there exactly when it was made and not removed since. |
| `CompareAndSwap.FreshUpload` | objstore/objstore.go:1080-1082 | In every run the number drawn next is no upload's. |
| `CompareAndSwap.NoETagReused` | objstore/objstore.go:755-762 | With unique ETags no two writes that take effect get the same one. |
| `CompareAndSwap.IfMatchOnce` | objstore/objstore.go:701-711 | With unique ETags, of the writes to a key conditional on a single ETag one takes effect at most. |
| `CompareAndSwap.IfNoneMatchOnce` | objstore/objstore.go:691-700 | Between a write to a key and a later one conditional on there being no object, the key was deleted. |
| `CompareAndSwap.DigestsRepeat` | objstore/objstore.go:755-762 | Without unique ETags, two writes conditional on one ETag can both take effect. |

## Left out

- Backends, ssh, processes, network namespaces and cgroup files: the kernel's freeze flag is a variable, and a failed write changes nothing.
- netfault, diskfault, resfault, reporters, results directories and the command line: none of it decides a verdict modelled here.
- Report texts: of a report the kind is stated, and for cycles the transactions and edges; which transactions, values and keys the other reports name is not.
- The order of reports where the source sorts the values or keys of a map first: keys and values are visited in any order.
- Classify.ClassifyComponent: in a component that has a cycle without rw edges, which is reported, that G-nonadjacent is reported too whenever it could be is not stated.
- Edges between the transactions of one process (Options.Process).
- The hash of a configuration is any function; the search is right for each.
- Contexts are a function of how often they have been asked, limits a number of configurations; the time a check may take is part of the context it is given, any one for each check.
- Locality.LinearizableByPart: asks that each group lie within one key and be concurrent; with a group across keys it does not hold (CrossGroups).
- Serializability.SilenceIsSerializability: asks that each value be appended once, as the package does of its callers, and with Realtime that a transaction return no earlier than it began.
- LogReads.CheckReads: where values are not unique to their appends, as the package asks of its callers, what the histories searched hold is not stated; and the explanation given of a key that is not linearizable is not modelled.
- LogSound.CheckIsSilent and LogReadsSound.CheckReadsIsSilent: of runs whose appends have unique values, as the package asks.
- LogExact.SilentIffRun and LogReadsExact.SilenceIffRun: ask for unique values and offsets from 1, as the package does; and the second that no read return at the time that stands for no return, since the search takes such a read for unanswered.
- SnapshotIsolation.SnapshotIff, SnapshotIsolation.SilenceIsSnapshotIsolation and Levels.SnapshotLevel: without Realtime, whose edges between starts and commits are not part of the level.
- Snapshots.LinearizableByTimestamp: asks that reads change nothing, and that the reads of each snapshot have a group or no write be in doubt, as the package says to give them.
- Node resources: whether a node satisfies a spec is any relation, and a spec's score any number.
- The driver's persistence errors and job timeouts, and the sizing of jobs: a request that cannot be sized is one of the given broken ones.
- The object server's requests and replies over HTTP, ranges, listings, metadata, access control and faults; uploads go by the number in their ID, and digests are any function.
- CompareAndSwap.NoETagReused: numbers are unbounded, so the wrap-around of the 64-bit counter after 2^63 numbers is not modelled.
- Gate.GateSafe: the poll for the kernel's event after a freeze is one step.

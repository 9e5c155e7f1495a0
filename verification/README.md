# Porcupine, MapReduce and Chord, verified

A Dafny model of three programs in this repository, with proofs of what they are for:

- **Porcupine** (`Lab3/src/porcupine`, `Lab3/src/models`): the linearizability checker. The search of `checkSingle`
  is modelled as it is written: a doubly linked list from which calls and returns are lifted and put back, a hash
  table of bitsets as memo, a stack, and the record of longest orders. It is proved sound and complete against a
  definition of linearizability that knows nothing of identifiers, entries or lists; the partition by key and the
  parallel driver are proved to preserve that answer.
- **MapReduce** (`Lab3/src/mr`): the coordinator as an object whose methods are its locked sections, the workers'
  file operations, and all runs of a job in which workers may stop or be slow, timers run out, and reports come late
  or twice. Whenever the coordinator says that the job is over, the outputs hold the lines of the sequential program
  (`Lab3/src/main/mrsequential.go`); and from every state the job can still be finished.
- **Chord** (`Lab2/Node`): lookup, join, stabilise, notify, finger maintenance and the moving of files. In every
  failure-free run the successors form one ordered cycle; from every state stabilisation can still come to rest, and
  where it rests every pointer and every lookup is right; `m` calls of `fixFingers` at every node, in any order, make
  every finger right, after which a lookup takes at most `m` hops; a join keeps every file at its owner.

## Layout

| files | contents |
|---|---|
| `Options`, `Powers`, `Sorting` | options, powers of two, sorting and permutations |
| `Linearizability`, `SearchTheory` | what linearizability is; the search as a traversal of configurations |
| `Bitset`, `MemoTable`, `LinkedHistory`, `Entries`, `Checker` | the data structures of the search and the search itself |
| `OperationEntries`, `OperationCheck`, `EventCheck` | from operations and from events to the search |
| `Locality`, `KvModel`, `ParallelCheck`, `Visualization` | partition by key, parallel driver, display |
| `Coordinator`, `MrData`, `MrEquivalence` | the coordinator; the data path; equality with the sequential program |
| `MrRun`, `MrSystem`, `MrHolder`, `MrProgress` | runs of a job; what they keep and end with; whose report counts; that they can end |
| `Ring`, `ChordLookup`, `FixFingers`, `Placement` | identifiers, lookup, fingers, files |
| `ChordRing`, `ChordSettle`, `ChordStable` | runs of the ring; that they can settle; runs and lookups together |
| `ChordNode` | the node object |

`dafny verify dfyconfig.toml` checks everything.

## Where the code does not do what its names or comments say

- `CheckOperations`, which has no timeout, never returns on an empty key-value history: there is no partition, and
  the receive loop waits for a result (`ParallelCheck.EmptyHistoryIsNeverOk`). On every other history every run ends,
  and with the exact verdict (`ParallelCheck.CheckOperationsAnswers`).
- The `Found` flag of a lookup reports the first hop only; a lookup whose later hop fails answers "found" with an
  error text for an address (`ChordLookup.FoundWithoutAddress`). All lookups get an address exactly when every member
  can reach its successor (`ChordLookup.AnsweredIffReachable`), and then the flag is right; in any one network the flag
  is honest exactly when no single forward leads to a member that cannot reach its successor
  (`ChordLookup.HonestIffForwardsWell`).
- When a second node joins a ring of one, no files move, and some may be misplaced (`Placement.LoneJoinMisplaces`);
  `Placement.LoneNodeKeepsFiles` says exactly when. The next notify of the new node, once the first one has it as
  successor, puts this right (`Placement.NextNotifyRepairs`).
- A map task whose file name is empty is handed out again and again and never done, so such a job never ends; all
  others can be finished from every state (`MrProgress.FinishableIffNamed`).

## What is taken as given

- Operations end no earlier than they begin, and an event history has one call and one later return per identifier.
- `Equal` of a Porcupine model identifies only states that no later step can tell apart (plain equality does).
- The map function gives the same pairs whenever it is run on the same file, the reduce function does not depend on
  the order of the values, there is at least one reduce task, and a rename replaces a file in one step.
- Hash functions (FNV for keys, SHA-1 for names) are arbitrary functions; Chord identifiers of different nodes differ.

## Model

| member | source | states |
|---|---|---|
| `Checker.CheckSingle` | Lab3/src/porcupine/checker.go:179-253 | The search answers yes only for linearizable histories, and no only for histories that are not linearizable unless it was killed. Every order it reports is a legal partial linearization. When it says yes, or ran to its end with reporting on, the order reported for an operation is as long as any that contains it, and is missing only if there is none. It says yes only if the kill flag was down at each of at least as many turns as there are operations; a flag that is up at the first turn gives no, with no order reported; nothing is reported with a no unless reporting is on, and with a yes every operation gets the same complete order. |
| `Checker.Search` | Lab3/src/porcupine/checker.go:190-253 | The loop over the shared list, the memo table, the bitset and the stack ends in one of three ways: a complete legal order, a proof that none exists, or a kill. It ends on every history, since each turn uses up a memo pair, an explored pair or a list position; and it goes on only while the flag is down. |
| `Checker.SearchList` | Lab3/src/porcupine/checker.go:182-243 | Setting the search up on a freshly built list and running it decides linearizability of the operations in the list, with the same promises about the flag and the records. |
| `Checker.ConsiderCall` | Lab3/src/porcupine/checker.go:194-213 | A call entry is placed only if its step succeeds and its pair is new, else passed; the search invariant and the links of the list survive either way, and some finite resource shrinks. |
| `Checker.Pass` | Lab3/src/porcupine/checker.go:208-213 | Moving on leads to the next entry still in the list, and keeps the search invariant if the call's step failed or its pair is covered. |
| `Checker.Place` | Lab3/src/porcupine/checker.go:202-207 | Pushing a call removes exactly it and its return from the list and puts the cursor on the first entry left. |
| `Checker.TryCall` | Lab3/src/porcupine/checker.go:195-205 | A pair is entered in the memo exactly when the step succeeds and no equivalent pair is there; a refusal after a successful step means that an equivalent pair is there. |
| `Checker.Backtrack` | Lab3/src/porcupine/checker.go:214-241 | Popping restores list, bitset and state to what they were before the push, marks the popped pair as explored, and goes on right after the popped call. |
| `Checker.RecordLongest` | Lab3/src/porcupine/checker.go:218-233 | Each operation on the stack gets the current order if it had none or a shorter one; all other records stay. |
| `Checker.RecordedAfter` | Lab3/src/porcupine/checker.go:218-233 | After recording, every explored pair's operations have a record at least as long as that pair, and every record is a legal partial linearization. |
| `Checker.Fail` | Lab3/src/porcupine/checker.go:215-217 | An empty stack at a return entry means that every reachable pair was explored, hence that the history is not linearizable. |
| `Checker.Succeed` | Lab3/src/porcupine/checker.go:244-252 | An empty list means that the stack is a complete legal order, hence that the history is linearizable. |
| `Checker.SkipStep` | Lab3/src/porcupine/checker.go:208-213 | Passing a call whose step fails or whose pair is already covered keeps the invariant of the search over the list. |
| `Checker.PushStep` | Lab3/src/porcupine/checker.go:203-207 | Pushing keeps the invariant of the search, and adds one pair to those on the stack. |
| `Checker.PopStep` | Lab3/src/porcupine/checker.go:235-241 | Popping keeps the invariant of the search; a pair moves from the stack to the explored ones and none is lost. |
| `SearchTheory.Start` | Lab3/src/porcupine/checker.go:183-189 | Before the first turn nothing is explored and every call is still ahead. |
| `SearchTheory.Skip` | Lab3/src/porcupine/checker.go:194-213 | Moving forward over a tried call leaves no untried call behind. |
| `SearchTheory.Push` | Lab3/src/porcupine/checker.go:203-207 | A call met by the cursor is minimal in real time, so pushing it gives a legal partial linearization again. |
| `SearchTheory.Pop` | Lab3/src/porcupine/checker.go:235-241 | When a return blocks the way, every minimal call has been tried from this configuration, so the configuration may count as explored. |
| `SearchTheory.HitIsExplored` | Lab3/src/porcupine/checker.go:145-152 | A memo hit is never a configuration that is still on the stack. |
| `SearchTheory.EveryPartialIsCovered` | Lab3/src/porcupine/checker.go:140-152 | Pruning by the memo, with an equality that no later step can see through, loses nothing: after an exhausted search every legal partial linearization has an explored configuration with the same operations and an equal state. |
| `SearchTheory.ExhaustedMeansNotLinearizable` | Lab3/src/porcupine/checker.go:215-217 | An exhausted search leaves no complete legal order. |
| `SearchTheory.ExhaustedMeansOptimal` | Lab3/src/porcupine/checker.go:218-233 | After an exhausted search the recorded orders are the longest possible ones. |
| `Linearizability.PartialMeaning` | Lab3/src/porcupine/checker.go:190-213 | A partial linearization, defined step by step as the search builds it, is an order in which every operation is minimal among those left when it is placed and whose run of the model succeeds throughout. |
| `Linearizability.PartialRespectsRealTime` | Lab3/src/porcupine/checker.go:190-213 | Every partial linearization is free of duplicates, respects real time and is accepted by the model. |
| `Linearizability.CompletePartialIsLinearization` | Lab3/src/porcupine/checker.go:244-252 | A complete order built by minimal choices is a permutation of the history that respects real time and that the model accepts. |
| `Linearizability.LinearizationIsCompletePartial` | Lab3/src/porcupine/checker.go:190-243 | Conversely every linearization of a history, in whatever way it was found, can be built by minimal choices. |
| `Linearizability.LinearizableIffCompletePartial` | Lab3/src/porcupine/checker.go:179-253 | Linearizability, stated on operations without identifiers or entries, holds exactly when a complete order of minimal choices exists. |
| `Linearizability.PartialSameShape` | Lab3/src/porcupine/checker.go:48-60 | Only which operations precede which matters for partial linearizations, not the times themselves. |
| `LinkedHistory.Lift` | Lab3/src/porcupine/checker.go:159-167 | Cutting out a call and its return leaves all other nodes linked in their order. |
| `LinkedHistory.Unlift` | Lab3/src/porcupine/checker.go:169-177 | Undoing the latest cut restores the list exactly as it was before, pointer by pointer, even if further cuts and undos came between. |
| `LinkedHistory.Bypass` | Lab3/src/porcupine/checker.go:160-166 | Bypassing one node through its own two pointers removes that node and nothing else from the chain. |
| `LinkedHistory.Rejoin` | Lab3/src/porcupine/checker.go:170-176 | A bypassed node's own two pointers are enough to put it back. |
| `LinkedHistory.NeighboursPointBack` | Lab3/src/porcupine/checker.go:159-177 | In any list after any sequence of cuts, a node's neighbours point to it, so that cutting it can be undone. |
| `LinkedHistory.ChainSnoc` | Lab3/src/porcupine/checker.go:159-167 | Cutting one more node changes exactly two links of the chain that is left. |
| `LinkedHistory.LinkedNext` | Lab3/src/porcupine/checker.go:207-212 | Following the next pointer of a node in the list leads to the next node that has not been cut. |
| `Entries.MakeLinkedEntries` | Lab3/src/porcupine/checker.go:121-138 | The list has one fresh node per entry in the order of the entries, linked both ways, and each call node refers to the node of its own return. |
| `Entries.InsertBefore` | Lab3/src/porcupine/checker.go:70-81 | Inserting before a node relinks exactly the neighbours concerned, and nothing if there is no such node. |
| `Entries.Prepend` | Lab3/src/porcupine/checker.go:70-81 | Putting a node in front of a doubly linked list gives a doubly linked list. |
| `Entries.PrependEntry` | Lab3/src/porcupine/checker.go:124-136 | One turn of the building loop adds the node of one entry, matched with its return if it is a call. |
| `Entries.Length` | Lab3/src/porcupine/checker.go:83-90 | Walking the list counts its nodes. |
| `Entries.IndexIsUnique` | Lab3/src/porcupine/checker.go:121-138 | A history determines where each identifier's call and return stand. |
| `MemoTable.Table.constructor` | Lab3/src/porcupine/checker.go:183 | The table starts empty. |
| `MemoTable.Table.Contains` | Lab3/src/porcupine/checker.go:145-152 | Looking in the one bucket that the hash selects finds an equivalent pair exactly when the whole table has one. |
| `MemoTable.Table.Insert` | Lab3/src/porcupine/checker.go:200-202 | Appending to the bucket adds exactly one pair to the table. |
| `OperationEntries.MakeEntries` | Lab3/src/porcupine/checker.go:48-60 | The entries are the call and return of every operation with its value, time and client, no more and no fewer, sorted by time with calls before returns at equal times. |
| `OperationEntries.SortedPositions` | Lab3/src/porcupine/checker.go:39-46 | After sorting, a return stands before a call exactly when the one operation ended strictly before the other began. |
| `OperationEntries.ArrangedIsIndexed` | Lab3/src/porcupine/checker.go:48-60 | Any sorted arrangement of the entries of a timed history is well formed and keeps its precedence order. |
| `OperationEntries.ArrangedEntriesAgree` | Lab3/src/porcupine/checker.go:48-60 | The entries pose the same linearizability question as the timed operations, and have the same partial linearizations. |
| `OperationCheck.CheckPartition` | Lab3/src/porcupine/checker.go:365-373 | Sorting a partition's operations and searching the entries decides linearizability of the operations with their own times, and reports longest legal orders of them. |
| `EventCheck.Renumber` | Lab3/src/porcupine/checker.go:92-106 | Every event keeps its kind, value and client; new identifiers are equal exactly where old ones are, and a number is used only after all smaller ones; for every list of events. |
| `EventCheck.ConvertEntries` | Lab3/src/porcupine/checker.go:108-119 | The entry at each position has that position as its time and the event's own content. |
| `EventCheck.EntriesKeepMeaning` | Lab3/src/porcupine/checker.go:355-363 | For every history with one call and one later return per identifier, the converted entries are well formed and hold exactly the operations that the events describe. |
| `EventCheck.CheckPartition` | Lab3/src/porcupine/checker.go:355-363 | Renumbering, converting and searching decides linearizability of the operations that the events describe. |
| `Bitset.NewBitset` | Lab3/src/porcupine/bitset.go:10-17 | The bitset has just enough words and represents the empty set. |
| `Bitset.Clone` | Lab3/src/porcupine/bitset.go:19-23 | A fresh copy with the same words. |
| `Bitset.Set` | Lab3/src/porcupine/bitset.go:29-33 | The represented set gains exactly one element. |
| `Bitset.Clear` | Lab3/src/porcupine/bitset.go:35-39 | The represented set loses exactly one element. |
| `Bitset.Get` | Lab3/src/porcupine/bitset.go:41-44 | Membership in the represented set. |
| `Bitset.PopCnt` | Lab3/src/porcupine/bitset.go:46-52 | The number of elements of the represented set. |
| `Bitset.Hash` | Lab3/src/porcupine/bitset.go:54-60 | The hash of the words as they stand. |
| `Bitset.Equals` | Lab3/src/porcupine/bitset.go:62-72 | For bitsets of one length: equality of the represented sets. |
| `Bitset.MembersInjective` | Lab3/src/porcupine/bitset.go:62-72 | Bitsets of one length that represent the same set have the same words. |
| `Bitset.HashBits` | Lab3/src/porcupine/bitset.go:54-60 | Bit j of the hash is bit j of the size of the set, flipped once for each word that has bit j on. |
| `Bitset.EqualSetsHashEqually` | Lab3/src/porcupine/bitset.go:54-60 | The same set has the same hash in any two bitsets of one length, so a memo lookup misses nothing. |
| `Bitset.PopCountIsCardinality` | Lab3/src/porcupine/bitset.go:46-52 | Counting bits word by word gives the cardinality of the set. |
| `Bitset.SetBit` | Lab3/src/porcupine/bitset.go:29-33 | Bitwise or with one shifted bit adds one element, across word borders. |
| `Bitset.ClearBit` | Lab3/src/porcupine/bitset.go:35-39 | Bitwise and-not with one shifted bit removes one element. |
| `Locality.LocalityTheorem` | Lab3/src/porcupine/model.go:28-32 | For every model and every way to assign keys: a timed history is linearizable against the map of all keys exactly when the part of each key is linearizable against its own object. |
| `Locality.KeysToStore` | Lab3/src/porcupine/model.go:28-32 | Separate linearizations of the keys can be merged into one linearization of the whole store. |
| `Locality.StoreToKey` | Lab3/src/porcupine/model.go:28-32 | A linearization of the whole store restricts to one of each key. |
| `Locality.RealTimeIffPoints` | Lab3/src/porcupine/model.go:28-32 | An order respects real time exactly when every operation can be given a point inside its interval so that the points follow the order. |
| `Locality.StoreProjects` | Lab3/src/porcupine/model.go:28-32 | A run of the whole store is legal exactly when the run of each key is, and leaves each key in its own state. |
| `Locality.MergeOrdered` | Lab3/src/porcupine/model.go:28-32 | Merging two orders by their points keeps the points in order. |
| `Locality.MergeFilter` | Lab3/src/porcupine/model.go:28-32 | Merging orders of different keys leaves each key's own order untouched. |
| `KvModel.LegalIffReadsRight` | Lab3/src/models/kv.go:35-54 | An order of operations on one key is legal exactly when every get returns the value of the last put before it, or the empty string if there is none, followed by the values of the appends since then, in their order. |
| `KvModel.StoreLegalIffReadsRight` | Lab3/src/models/kv.go:35-54 | An order on the whole store is legal exactly when every get returns what was so written to its own key. |
| `KvModel.Partition` | Lab3/src/models/kv.go:18-34 | The partitions are the operations of each key in their order, keys sorted and each once; and a timed history is linearizable as a whole store if and only if every one of them is as a single value. |
| `KvModel.PartitionIsLocal` | Lab3/src/porcupine/model.go:28-32 | What the model promises of its partition function: the history is linearizable as a whole store if and only if each partition is as a single value. |
| `KvModel.PartsPartition` | Lab3/src/models/kv.go:18-34 | Every operation of the history is in exactly one partition, as often as in the history. |
| `KvModel.KvCongruence` | Lab3/src/models/kv.go:40-54 | Plain equality of the stored strings is an equality that the memo may use. |
| `ParallelCheck.StepKeepsInv` | Lab3/src/porcupine/checker.go:291-310 | Every receive, timeout and finished search keeps the relation between the results that arrived and the answer so far, in any interleaving. |
| `ParallelCheck.RunKeepsInv` | Lab3/src/porcupine/checker.go:291-310 | That relation holds in every state of every run. |
| `ParallelCheck.VerdictIsSound` | Lab3/src/porcupine/checker.go:274-353 | In every run Illegal is right, Ok is right, and Unknown comes only with a timeout. |
| `ParallelCheck.KillAndDrain` | Lab3/src/porcupine/checker.go:294-318 | The flag that stops the searches is up exactly after a timeout, or after the first no when only the verdict is wanted; when partial results are wanted, the verdict waits for every search. |
| `ParallelCheck.OkIsReachable` | Lab3/src/porcupine/checker.go:291-310 | Some run ends with Ok exactly when all partitions are linearizable and there is at least one. |
| `ParallelCheck.IllegalIsReachable` | Lab3/src/porcupine/checker.go:291-310 | Some run ends with Illegal exactly when some partition is not linearizable. |
| `ParallelCheck.SearchesDecideStore` | Lab3/src/porcupine/checker.go:365-373 | All searches of a key-value history answer yes exactly when the history is linearizable against the whole store. |
| `ParallelCheck.CheckOperationsDecides` | Lab3/src/porcupine/porcupine.go:5-8 | For key-value histories with calls before returns: Ok is possible exactly for the non-empty linearizable ones, Illegal exactly for those that are not linearizable. |
| `ParallelCheck.CheckOperationsAnswers` | Lab3/src/porcupine/porcupine.go:5-8 | Every run on a key-value history that can go no further has at most two events per key and two more; it has a verdict exactly if the history is not empty or there is a timeout; and unless the timer went off, the verdict on a non-empty history is Ok if it is linearizable and Illegal if not. |
| `ParallelCheck.MaximalRunsDecide` | Lab3/src/porcupine/checker.go:274-353 | Every run that can go no further has a verdict unless there is no partition and no timeout, and without a timeout it is the right one. |
| `ParallelCheck.RunsAreBounded` | Lab3/src/porcupine/checker.go:291-353 | No interleaving is longer than two events for each search and two more. |
| `ParallelCheck.SearchPartition` | Lab3/src/porcupine/checker.go:281-285 | A search of one partition gives the answers that the protocol allows it: the right one, or no after the kill flag was raised. |
| `ParallelCheck.EmptyHistoryIsNeverOk` | Lab3/src/porcupine/checker.go:291-310 | The empty history is linearizable, but no run on it ever ends with Ok, and without a timeout none ends with any verdict: the loop waits for a result that no search sends. |
| `Visualization.Values` | Lab3/src/porcupine/visualization.go:37-53 | Each operation is shown with the client and time of its call and the time of its return, and the two tables hold its input and output. |
| `Visualization.Replay` | Lab3/src/porcupine/visualization.go:63-78 | Replaying an order through the model succeeds exactly when the order is legal, and then shows each state along the way. |
| `Visualization.NoteLargest` | Lab3/src/porcupine/visualization.go:73-76 | After each order, every operation seen so far is assigned the first of the longest orders that contain it. |
| `Visualization.ComputeVisualization` | Lab3/src/porcupine/visualization.go:33-87 | The display panics exactly when it is given an order that the model rejects; otherwise it shows all orders, longer ones first, and assigns every operation the first of the longest ones that contain it. |
| `Visualization.CollectPartials` | Lab3/src/porcupine/checker.go:320-338 | The orders passed on are exactly those that were recorded for some operation. |
| `Visualization.ReportedNeverPanics` | Lab3/src/porcupine/visualization.go:68-70 | Every order that a search reports is free of duplicates, respects real time and replays, so the panic cannot be reached. |
| `Visualization.CheckAndDisplay` | Lab3/src/porcupine/visualization.go:33-87 | Searching a history, even with a search that is killed, and displaying what it reports never panics, and every order shown respects real time. |
| `MrSystem.DoneMeansSequential` | Lab3/src/mr/coordinator.go:212-217 | In every run, with any crashes, delays, timeouts and repeated executions: when `Done` or `CanExit` holds or an exit task is handed out, every output file is there and together they hold exactly the lines that the sequential program writes for the same inputs. |
| `MrSystem.RunKeepsInv` | Lab3/src/mr/coordinator.go:84-188 | In every state of every run: counters, leases, files, jobs, reports and tasks agree with each other. |
| `MrSystem.StepKeepsInv` | Lab3/src/mr/coordinator.go:84-188 | Every locked section of the coordinator, every file operation of a worker and every delivery keeps this agreement. |
| `MrSystem.StoredIsFinal` | Lab3/src/mr/worker.go:267-299 | Over any stretch of any run, completed tasks stay completed, and intermediate and output files are only ever overwritten with what they hold already. |
| `MrSystem.TimersAreCurrent` | Lab3/src/mr/coordinator.go:170-188 | A sleeping timer always belongs to the current lease of its task, is the only one for that task, and never coexists with a dispatch still under way; so no timer takes a task back from a later worker. |
| `MrSystem.LeaseStates` | Lab3/src/mr/coordinator.go:84-188 | In every state of every run: a task not started has no worker, no timer and no dispatch under way; one in progress has exactly one dispatch under way and no worker yet, or exactly one timer; a completed one has at most one timer. |
| `MrHolder.ReportCountsIffHeld` | Lab3/src/mr/coordinator.go:106-136 | In every run a report that arrives changes the tables if and only if its task is not completed and the latest dispatch of the task went to the reporting worker and that lease has not run out since; then exactly that task is completed and counted. |
| `MrHolder.RunKeepsHolder` | Lab3/src/mr/coordinator.go:84-188 | In every run the table names as worker of a task in progress exactly the one that holds its lease, and nobody holds a task that has not started. |
| `MrSystem.CountsAndBarrier` | Lab3/src/mr/coordinator.go:106-168 | In every run, whatever late or duplicate reports arrive, each counter is the number of completed tasks, and no reduce task leaves its first state before all map tasks are completed. |
| `MrSystem.DoneMeansFinal` | Lab3/src/mr/coordinator.go:212-217 | Once the coordinator has said that the job is over it stays over, and no output ever changes again. |
| `MrSystem.NeverStuck` | Lab3/src/mr/coordinator.go:138-168 | While the job is not done, a task can be handed out, or some task in progress is on its way to a worker or has the timer running that will free it. |
| `MrProgress.CanAlwaysFinish` | Lab3/src/mr/worker.go:70-102 | From every state of every run some continuation completes the whole job, provided no input file has an empty name. |
| `MrProgress.FinishableIffNamed` | Lab3/src/mr/worker.go:84-91 | At any moment of any run the job can still be finished if and only if every input file has a name that is not empty. |
| `MrProgress.EmptyNameNeverDone` | Lab3/src/mr/worker.go:84-86 | A job with an empty input file name is never done in any run: its workers ignore that map task each time it is handed out. |
| `MrProgress.CompleteOne` | Lab3/src/mr/worker.go:70-102 | Whenever a task can be handed out, a new worker can carry it through to a counted completion. |
| `MrProgress.FreeOne` | Lab3/src/mr/coordinator.go:170-188 | A task that is in progress, with a worker that may be gone, can always come back to be handed out again. |
| `MrRun.StepKeepsLeases` | Lab3/src/mr/coordinator.go:84-188 | Every step keeps the lease rules: a task not started has no worker, timer or dispatch; a task in progress has exactly one of a dispatch under way and a timer. |
| `MrSystem.GlobIsComplete` | Lab3/src/mr/worker.go:203-231 | When a reduce task lists its input files, it finds those of all map tasks, and no others. |
| `MrSystem.WriteIsRight` | Lab3/src/mr/worker.go:203-265 | Whatever the order in which it reads the files, a reduce task writes the summary of everything that belongs to it. |
| `MrSystem.StepKeepsStored` | Lab3/src/mr/worker.go:134-175 | A repeated execution of a task rewrites files with their own contents. |
| `MrSystem.DoneMeansStored` | Lab3/src/mr/coordinator.go:106-136 | When the coordinator says that the job is over, each output file holds the summary of its share of all pairs. |
| `Coordinator.Coordinator.constructor` | Lab3/src/mr/coordinator.go:282-320 | All tasks are not started, carry their own position and file, and nothing is counted. |
| `Coordinator.Coordinator.SelectTask` | Lab3/src/mr/coordinator.go:138-168 | The chosen task and the new table are those of the selection rule on the old table, and the counters stay right. |
| `Coordinator.Coordinator.AssignTask` | Lab3/src/mr/coordinator.go:84-104 | The worker is noted in the chosen task only, and the reply names that task and its file. |
| `Coordinator.Coordinator.CompleteTask` | Lab3/src/mr/coordinator.go:106-136 | Exactly if the task was in progress with the reporting worker, it alone becomes completed and its counter goes up by one; otherwise nothing changes. The answer says exactly whether every task is completed. |
| `Coordinator.Coordinator.TimeOut` | Lab3/src/mr/coordinator.go:170-188 | A task still in progress goes back to not started and loses its worker; any other is left alone. |
| `Coordinator.Coordinator.Done` | Lab3/src/mr/coordinator.go:212-217 | True exactly when every map task and every reduce task is completed. |
| `Coordinator.PickMeaning` | Lab3/src/mr/coordinator.go:138-168 | Reduce tasks are handed out only when all map tasks are completed; exit is said exactly when everything is completed; wait is said only while some task is in progress. |
| `Coordinator.PickIsFirstIdle` | Lab3/src/mr/coordinator.go:138-168 | The task handed out is the first map task not started; if there is none and all maps are completed, the first reduce task not started; and nothing else is ever handed out. |
| `Coordinator.SectionsKeepCounts` | Lab3/src/mr/coordinator.go:84-188 | No locked section ever counts a task twice or drops a count. |
| `Coordinator.DoneIffCompleted` | Lab3/src/mr/coordinator.go:212-217 | Comparing two counters with two lengths decides whether all tasks are completed. |
| `MrData.WriteMapOutput` | Lab3/src/mr/worker.go:134-175 | Each of the output files holds, in order, the pairs whose key hashes to it. |
| `MrData.ShareValues` | Lab3/src/mr/worker.go:152-158 | A file has all the values of its own keys in order and nothing of any other key. |
| `MrData.Group` | Lab3/src/mr/worker.go:232-263 | The table has every key of the files with all its values in order. |
| `MrData.WriteReduceOutput` | Lab3/src/mr/worker.go:267-291 | One line for each key, sorted by key. |
| `MrData.DoReduce` | Lab3/src/mr/worker.go:203-265 | The lines are the sorted summary of all pairs in the files read. |
| `Sorting.StringLeqMeaning` | Lab3/src/mr/worker.go:269-274 | The order of keys is lexicographic: at the first place where two strings differ, one ends or has the smaller character. |
| `MrData.SummaryByPosition` | Lab3/src/mr/worker.go:267-299 | The lines have strictly increasing keys, one for every key and no other, and each value is what the reduce function gives for the values at all positions of that key, in order. |
| `MrData.ReduceRuns` | Lab3/src/main/mrsequential.go:68-84 | Scanning sorted pairs run by run writes one line for each key with all its values. |
| `MrData.RunHasAllValues` | Lab3/src/main/mrsequential.go:70-77 | In sorted pairs, one run holds all the values of its key. |
| `MrEquivalence.PartitionedEqualsSequential` | Lab3/src/main/mrsequential.go:38-84 | For every hash and every reduce function that does not depend on the order of its values: the lines of all partitions together are a permutation of the lines of the sequential program. |
| `MrEquivalence.PermutedSummary` | Lab3/src/mr/worker.go:203-265 | The summary does not depend on the order of the pairs. |
| `MrEquivalence.SummaryIsUnique` | Lab3/src/mr/worker.go:267-299 | There is only one summary of given pairs, so every execution of a reduce task writes the same file. |
| `MrEquivalence.SharesConcat` | Lab3/src/mr/worker.go:152-158 | Sharing out the map outputs separately and joining the shares is sharing out all pairs at once. |
| `MrEquivalence.ReadOrder` | Lab3/src/mr/worker.go:232-263 | Reading the files in another order gives the same pairs. |
| `MrEquivalence.AllLinesCount` | Lab3/src/mr/worker.go:267-299 | Every line occurs exactly once in all outputs together, in the one its key's hash selects. |
| `Ring.BetweenIsDistance` | Lab2/Node/tools.go:184-190 | The interval test, with its wrap-around cases, compares clockwise distances from its start, the start itself being a full turn away. |
| `Ring.FingerStartDist` | Lab2/Node/stabilizing.go:167-180 | The start of finger k lies 2^(k-1) clockwise of the node. |
| `ChordLookup.ForwardIsCloser` | Lab2/Node/routing.go:13-30 | Whatever the fingers hold, the node that a lookup is forwarded to can be reached, lies strictly between, and is strictly nearer to the identifier; so no lookup runs for ever. |
| `ChordLookup.ClosestPrecedingFacts` | Lab2/Node/routing.go:13-30 | The chosen node is the last finger that can be reached and precedes the identifier, or the successor if there is none. |
| `ChordLookup.LookupIsRight` | Lab2/Node/routing.go:74-118 | If immediate successors are right, every lookup from every node finds the first member at or after the identifier, with any fingers at all. |
| `ChordLookup.AnswerIsUnique` | Lab2/Node/routing.go:74-118 | If immediate successors are right and identifiers differ, a lookup from any node answers with a given address exactly if that is the one successor of the identifier; where the lookup starts makes no difference. |
| `ChordLookup.FoundReportsFirstHopOnly` | Lab2/Node/routing.go:105-114 | The found flag says no more than that the first node could reach its successor. |
| `ChordLookup.AnsweredIffReachable` | Lab2/Node/routing.go:74-118 | All lookups, from every member for every identifier, yield an address if and only if every member can reach its successor. |
| `ChordLookup.ReachableGivesAddress` | Lab2/Node/routing.go:74-118 | If every member can reach its successor, every lookup is both reported found and has an address. |
| `ChordLookup.HonestIffForwardsWell` | Lab2/Node/routing.go:105-114 | In a given network a found flag always comes with an address if and only if no single forward leads from a member that can reach its successor to one that cannot. |
| `ChordLookup.FoundWithoutAddress` | Lab2/Node/routing.go:105-114 | A concrete ring in which a lookup reports found and yet has no address. |
| `ChordLookup.HopHalves` | Lab2/Node/routing.go:13-30 | With accurate fingers each forward at least halves the remaining distance. |
| `ChordLookup.LookupTakesAtMostM` | Lab2/Node/routing.go:74-118 | With accurate fingers a lookup among 2^m identifiers is forwarded at most m times. |
| `ChordRing.RunKeepsInv` | Lab2/Node/stabilizing.go:52-85 | In every state of every failure-free run of any number of joins, stabilisations and notifies, with calls delayed or repeated: pointers lead to members and none jumps over the first node. |
| `ChordRing.StepKeepsInv` | Lab2/Node/node.go:232-255 | Each half of each remote call keeps this, also when it works with outdated answers. |
| `ChordRing.CloserIsNearer` | Lab2/Node/stabilizing.go:300-307 | A predecessor is replaced exactly by a node from which it is less far, going clockwise. |
| `ChordRing.AdoptedIsNearer` | Lab2/Node/stabilizing.go:80-83 | A stabilising node ends with the nearer of its successor and that node's predecessor. |
| `ChordRing.AcceptedIffNearer` | Lab2/Node/stabilizing.go:269-314 | In every reachable state a notify is accepted exactly when the node has no predecessor or one that is further away than the caller. |
| `ChordRing.RunKeepsAnnounced` | Lab2/Node/node.go:249-250 | In every state of every run every member has told its current successor about itself, except a first node that is still its own successor. |
| `ChordRing.PathsAreOnlyRefined` | Lab2/Node/stabilizing.go:52-85 | A node that can be reached clockwise stays reachable in every later state. |
| `ChordRing.AllReachFirst` | Lab2/Node/stabilizing.go:52-85 | Every member reaches the first node. |
| `ChordRing.OneOrderedCycle` | Lab2/Node/stabilizing.go:52-85 | In every state of every run the successors form exactly one cycle, in identifier order, and every member leads into it: the ring never splits and never loops out of order. |
| `ChordRing.QuietIsIdeal` | Lab2/Node/stabilizing.go:269-314 | Where stabilisation no longer changes anything, every successor and every predecessor is the right one. |
| `ChordRing.StepUsesSlack` | Lab2/Node/stabilizing.go:80-83 | No step but a join lengthens a successor pointer, and each change of a successor shortens the total. |
| `ChordRing.MovesAreBounded` | Lab2/Node/stabilizing.go:52-85 | Once nodes stop joining, successors change only finitely often, with an explicit bound. |
| `ChordSettle.CanAlwaysSettle` | Lab2/Node/stabilizing.go:52-85 | From every state of every run some continuation without joins ends where stabilisation changes nothing any more, and there every successor and predecessor is the right one. |
| `ChordSettle.SettleOne` | Lab2/Node/stabilizing.go:52-85 | A node that is not the predecessor of its successor can always take steps after which some successor is nearer, or one more node is settled and none is unsettled. |
| `ChordSettle.Overtake` | Lab2/Node/stabilizing.go:269-314 | Of two nodes with the same successor, the further one can always be brought to follow something nearer. |
| `ChordStable.LookupLocates` | Lab2/Node/node.go:243-245 | At any moment a lookup tells a joining node a successor of a member that precedes it. |
| `ChordStable.QuietLookupsAreRight` | Lab2/Node/routing.go:74-118 | In every run that has come to rest, every lookup from every node is right, whatever the fingers are. |
| `FixFingers.ShortcutIsRight` | Lab2/Node/stabilizing.go:244-249 | The shortcut that reuses an answer for later fingers never writes a wrong one. |
| `FixFingers.ShortcutExtent` | Lab2/Node/stabilizing.go:222-256 | The shortcut sets exactly the following fingers that start before the node found, up to the first that does not, and leaves the position at the last one set, or at 0 after the whole table. |
| `FixFingers.FixExtent` | Lab2/Node/stabilizing.go:183-257 | In any network: a call whose lookup fails moves the position on by one and sets nothing; otherwise the node found goes into the next finger and exactly those after it that start before that node. |
| `FixFingers.FixFacts` | Lab2/Node/stabilizing.go:183-257 | One call makes a stretch of fingers right, starting where the last one stopped, and spoils none; the first finger not set starts at or after the node found. |
| `FixFingers.SweepOn` | Lab2/Node/stabilizing.go:183-257 | Each further call completes the table or carries on by at least one index. |
| `FixFingers.AllRightStays` | Lab2/Node/stabilizing.go:183-257 | A complete table stays complete. |
| `FixFingers.MCallsFixAll` | Lab2/Node/stabilizing.go:183-257 | From any tables and positions, and with any calls at other nodes in between, m calls at a node make every one of its fingers right, and they stay so. |
| `FixFingers.OthersSpoilNothing` | Lab2/Node/stabilizing.go:183-257 | A call at another node leaves a node's progress through its own table untouched. |
| `FixFingers.RepairedLookupsAreShort` | Lab2/Node/stabilizing.go:183-257 | After m calls at every node, in any order, every lookup from every node is right and is forwarded at most m times. |
| `Placement.LeavesIffNearer` | Lab2/Node/stabilizing.go:348 | The condition for moving a file holds exactly when the new node is nearer after the file than the old owner. |
| `Placement.JoinKeepsPlacement` | Lab2/Node/stabilizing.go:316-370 | When a node joins before its successor, moving files loses and duplicates nothing and puts every file at its right owner in the larger ring. |
| `Placement.MemberMovesNothing` | Lab2/Node/stabilizing.go:316-370 | The repeated notifies of members move nothing. |
| `Placement.LoneNodeKeepsFiles` | Lab2/Node/stabilizing.go:374-376 | A node that is its own successor keeps all files when a second one joins; until the next notify they are in the right place exactly when none satisfies the moving condition. |
| `Placement.LoneJoinMisplaces` | Lab2/Node/stabilizing.go:374-376 | A concrete ring of one in which a join leaves a file at the wrong node. |
| `Placement.NextNotifyRepairs` | Lab2/Node/stabilizing.go:316-379 | The next notify of the joined node, once the first one has it as successor, puts every file in its right place and loses none, whatever the first node holds. |
| `Placement.SelfMoveLosesAll` | Lab2/Node/stabilizing.go:350-362 | Moving files to oneself would lose them all. |
| `ChordNode.Node.constructor` | Lab2/Node/node.go:207-222 | Every finger starts as the node itself. |
| `ChordNode.Node.CreateChord` | Lab2/Node/node.go:257-265 | The first node is its own successor and has no predecessor. |
| `ChordNode.Node.ClosePrecedingNode` | Lab2/Node/routing.go:13-30 | The loop over the fingers gives the node of the forwarding rule. |
| `ChordNode.Node.FindSuccessorRPC` | Lab2/Node/routing.go:74-118 | The recursive call over the node objects gives the reply of the lookup function, for requests of any size. |
| `ChordNode.Node.JoinChord` | Lab2/Node/node.go:232-255 | The join succeeds exactly when the lookup at the given node yields an address; then this is the successor, which hands over the files that are nearer to the new node and takes it as predecessor exactly if it had none or the new one is nearer; no other node changes. |
| `ChordNode.Find` | Lab2/Node/routing.go:34-61 | The loop of up to ten calls never does more than its first: it succeeds exactly when the first node can reach its successor, with the answer of that one lookup. |
| `ChordNode.Node.FixFingers` | Lab2/Node/stabilizing.go:183-257 | The node found goes into the next finger and exactly the following ones that start before it; if the lookup fails only the position moves, by one. |
| `ChordNode.Node.UseForLater` | Lab2/Node/stabilizing.go:222-256 | The loop at the end sets exactly the following fingers that start before the node, up to the first that does not. |
| `ChordNode.Node.StabilizeSuccessor` | Lab2/Node/stabilizing.go:52-85 | The successor becomes the nearer of itself and its reachable predecessor; nobody is notified when that predecessor cannot be reached. |
| `ChordNode.Node.Notify` | Lab2/Node/stabilizing.go:269-314 | The caller becomes predecessor exactly when there is none, or both can be reached and it is less far from the caller than from the old predecessor, going clockwise. |
| `ChordNode.Node.StoreChordFile` | Lab2/Node/node.go:322-347 | A file whose identifier, reduced to the ring, is there already is refused; otherwise it is added under the reduced identifier and nothing else changes. |
| `ChordNode.Node.MoveFiles` | Lab2/Node/stabilizing.go:316-370 | Whatever the order of iteration: the files that satisfy the moving condition leave, the others stay, and the receiver keeps what it had. |
| `ChordNode.Node.NotifyRPC` | Lab2/Node/stabilizing.go:372-379 | Files move whether or not the predecessor changes, but not from a node that is its own successor or to a caller that cannot be reached; of the old predecessor and the caller the nearer one stays. |

## Left out

- Bitset.Hash: stated as the function of the words that it computes; `Bitset.HashBits` says what that is, bit by bit.
- Checker.CheckSingle: the kill flag is an arbitrary sequence of loads, so a kill may or may not be seen; records are values, not pointers to slices.
- Visualization.CollectPartials: drops equal orders, where the code drops equal pointers and may show one order twice.
- ChordNode.Node.FindSuccessorRPC: reads its successor once where the code reads it twice; between the two reads a stabilisation could change it.
- ChordNode.Node.FixFingers: all calls see one state of the network, so a name call that fails inside the loop, after an earlier one to the same node succeeded, is not shown; the code then returns with `next` already advanced and that finger not set.
- ChordNode.Node.StabilizeSuccessor: covers the adoption of a nearer successor and who is notified, not the repair of the successor list before it or the copying of backups after it.
- MrSystem.DoneMeansSequential: assumes that clean-up of old files ends before the first worker writes, although the server is started first, and that no process number equals a reduce task's number, in which case a temporary file would match the pattern of the input files.
- MrData.WriteMapOutput: JSON encoding and decoding of pairs is taken as exact.
- `sort.Sort` and `sort.Strings` are modelled by an insertion sort; all results hold for any sorted permutation.
- Backups, the rest of the successor list, node failures, `checkPredecessor`, `cleanRedundantFile`, encryption and disk contents of Lab2; the protocol there gives no promise that could be stated for runs with failures.
- ChordNode.Node.JoinChord: an error text that the code would store as successor is here the empty address; neither can be reached.
- Overlapping stabilisations of one node, and two nodes or files with the same identifier.
- Running in the cloud: file transfer over HTTP in worker and coordinator.
- Visualization.Values: the description of an operation is not part of the element shown.
- The HTML page of the visualization and the descriptions of operations and states in it.
- Lab1, and the skeletons of Raft, the key-value servers and the shard controller with `labrpc` and `labgob`.

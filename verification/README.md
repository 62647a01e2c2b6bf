# Verified models of a linearizability checker, a simulated network and three smaller protocols

The project models the hardest code of the repository in Dafny and proves what that code is for.

* **The Porcupine linearizability checker** (`6.5840/src/porcupine`) with the key/value specification
  (`6.5840/src/models/kv.go`). `Linearizability.dfy` defines linearizability. `Search.dfy` is the walk over
  configurations (a set of ordered operations and the state they lead to) with its cache. `Cursor.dfy` relates the walk to a
  cursor in the entry list. `LinkedEntries.dfy`, `Bitset.dfy` and `Cache.dfy` are the pointer list, the bitset and the memo
  table in memory. `CheckSingle.dfy` is the search loop over all of these. `MakeEntries.dfy` and `Events.dfy` build its
  input; `LinearOrders.dfy`, `Kv.dfy`, `Reads.dfy` and `Partition.dfy` hold the specification, what it means for gets, the
  partition by key and the locality theorem; `CheckParallel.dfy` is the protocol between the workers and the collector; `Visualization.dfy` replays the
  partial linearizations; `CheckOperations.dfy` and `CheckEvents.dfy` put the parts together for operations and for events.
* **The simulated RPC network and the crash/restart protocol** (`6.5840/src/labrpc`, `6.5840/src/kvraft/config.go`,
  `6.5840/src/raft/persister.go`). `Network.dfy` is a step relation over requests, server instances, persisters and any number
  of `ShutdownServer` and `StartServer` calls under way at once, with the configuration's lock. `Durability.dfy` proves that
  acknowledged saves last, `Restarts.dfy` which rules callers must keep for that, `Writers.dfy` that no two instances write
  to one persister. `Traffic.dfy` counts requests and bytes and says why a request was answered as it was, `Answers.dfy`
  which answers it can get.
* **gnet** (`go-server/gnet`): packing and the reader loop in `Framing.dfy`, the worker pool in `WorkerPool.dfy`.
* **The bounded buffer** of `ProducerConsumerTest.java`, in `BoundedBuffer.dfy`, for any number of threads and any capacity.
* **The subarray-or search** of `solution3171.go`, in `SubarrayOr.dfy`, in 64-bit arithmetic.
* `Wrappers.dfy`, `Bytes.dfy`, `Sequences.dfy` and `Arithmetic.dfy` hold what the others share.

`dafny verify dfyconfig.toml` checks everything.

## Main results

1. `CheckSingle.CheckSingle`: for every well-formed history, every `Step` function and every behaviour of the kill flag, the
   search ends; it answers true only with a linearization, and false without having seen the flag only when there is none.
   With `computePartial` an exhausted search leaves, for each operation, a longest partial linearization that contains it, or
   nothing exactly when there is none, although the cache prunes most orders.
2. `Kv.Locality` and `CheckOperations.CheckIsCorrect`: a history is linearizable against the whole store if and only if
   its operations on each key are linearizable against the one-key specification, so every finished check of a
   key/value history gives the right answer for the whole store, in every interleaving of workers, timer and kill flag.
   By `Reads.LinearizableMeansConsistent` that is a statement about gets alone: in some order that keeps real time, each
   returns the last put on its key before it, followed by the appends in between.
   `CheckEvents.CheckIsCorrect` says the same of event histories, in terms of the events.
3. `CheckParallel.FinishesExactlyWhen`: every check comes to its end within a bounded number of steps, under any scheduling,
   if and only if there is a partition or a timer. `CheckParallel.VerdictTellsWhatHappened` says which verdict it gives:
   Illegal exactly when a false verdict was received, Unknown exactly when the timer fired before any.
4. `Durability.AcknowledgedIsDurable`, `Durability.AcknowledgedIsHandedOn` and `Restarts.DurableExactlyWhenStrict`: from the
   moment the last check lets a reply through, the handler's saves are in every state handed to later instances. Over all
   interleavings of requests, shutdowns and starts this holds if and only if callers keep three rules: a server is started
   only when none of its instances is registered, and neither a start nor a shutdown of it begins between a start's unlock
   and its `AddServer`. For each rule that is dropped there is a run that loses an acknowledged save.
   `Traffic` and `Answers` give the reasons for both answers: a positive one saw its server alive after the handler
   returned, a negative one had a reason, and which of them is possible is an if-and-only-if.
5. `SubarrayOr.MinimumDifference` and `SubarrayOr.AnswerIsRightExactly`: for non-negative numbers the answer is the least true
   distance when the largest distance fits in 64 bits, with the exact condition for all inputs.
6. `Framing.RoundTrip` and `Framing.Repack`: a list of messages arrives unchanged exactly when none is over the limit, and
   packing what was delivered gives back a prefix of the stream.
7. `WorkerPool.HandledInOrder`, `WorkerPool.AllGetHandled`, `BoundedBuffer.AlwaysProgress` and `BoundedBuffer.FirstInFirstOut`: order, conservation and
   progress in every reachable state.

## Where a promise does not hold

* The comment on restarting servers asks callers to shut a server down first, but `StartServer` does not check it. Without
  that, an acknowledged save can be lost: `Restarts.StartedTwice` with `Restarts.TornLosesSave`.
* `StartServer` gives up its lock before it makes and registers the instance. A second `StartServer` of the same server that
  begins in between makes another persister current, and the first instance, registered last, goes on acknowledging saves
  into the superseded one: `Restarts.StartsOverlap`. A `ShutdownServer` in between does the same: `Restarts.ShutdownOverlaps`.
* With no partitions and no timeout, `checkParallel` waits forever: `CheckParallel.NothingToCollect`. `KvModel` makes no
  partition for an empty history (`CheckOperations.Prepare`), so an empty key/value history without a timeout hangs
  (`CheckOperations.CheckFinishes`).
* `NewMsg` keeps the low 32 bits of a length, and `Pack` does not check the limit that `Unpack` enforces: a message over
  the limit does not arrive as it was sent (`Framing.RoundTrip`).
* `abs(v - k)` overflows when the distance does not fit in 64 bits, and the answer can then be wrong, even negative:
  `SubarrayOr.OverflowGivesNegative`. `SubarrayOr.AnswerIsRightExactly` says exactly when it is right.
* The comment on `node.match` says a nil match marks a call; the code uses it for returns, and the model follows the code.

## Model

| member | source | states |
|---|---|---|
| Linearizability.ShallowEqualRespectsStep | 6.5840/src/porcupine/model.go:59-61 | Comparing states with `==` meets the one demand the cache makes of `Equal`, for every `Step`: equal states allow the same continuations |
| Linearizability.PartialIsDistinct | 6.5840/src/porcupine/checker.go:218-234 | A partial linearization repeats no operation, so it is at most as long as the history and, at that length, holds every operation |
| Linearizability.FullPartialIsLinearization | 6.5840/src/porcupine/checker.go:244-252 | A partial linearization of all operations is exactly a linearization (both directions): building an order by enabled steps loses no total order |
| Search.PathIsPartial | 6.5840/src/porcupine/checker.go:203-205 | The operations on the calls stack always are a partial linearization that leads to the current state |
| Search.Push | 6.5840/src/porcupine/checker.go:200-207 | Entering an uncached configuration keeps the invariant that everything cached and no longer on the stack is explored completely |
| Search.Skip | 6.5840/src/porcupine/checker.go:208-213 | Passing over rejected operations, and over those that lead to a cached configuration, keeps that invariant |
| Search.Pop | 6.5840/src/porcupine/checker.go:235-241 | Backtracking keeps it: the configuration left behind is explored, and leads only to configurations that were left too |
| Search.LastIsExplored | 6.5840/src/porcupine/checker.go:214-241 | When no candidate is left, each successor of the top configuration is equal to one that left the stack earlier |
| Search.ExploredCoversAll | 6.5840/src/porcupine/checker.go:194-213 | Once all cached configurations are explored, every partial linearization ends in a configuration equal to a cached one, although most of those orders were never built |
| Search.FinishedHasNoCompletion | 6.5840/src/porcupine/checker.go:194-242 | Pruning does not change the verdict: at every moment a cached configuration is on the stack or has no completion to a full linearization |
| Search.ExhaustedMeansNotLinearizable | 6.5840/src/porcupine/checker.go:215-217 | A return entry met with an empty stack means that no linearization exists |
| Search.ExhaustedMeansLongest | 6.5840/src/porcupine/checker.go:185-186 | After an exhausted search each record is a longest partial linearization with its operation, or absent exactly when there is none |
| Search.FinitelyManyConfigs | 6.5840/src/porcupine/checker.go:190-243 | For any `Step`, also over infinite state types, a finite set holds all reachable configurations: the bound behind termination |
| LinkedEntries.InsertBefore | 6.5840/src/porcupine/checker.go:70-81 | The node is linked in both directions before the mark, also for a nil mark and for a mark at the front |
| LinkedEntries.MakeLinkedEntries | 6.5840/src/porcupine/checker.go:121-138 | The list is the entry sequence, linked both ways; a call is matched with the first return of its id that follows |
| LinkedEntries.Length | 6.5840/src/porcupine/checker.go:83-90 | Counts the nodes of the list |
| LinkedEntries.TakeOutLinks | 6.5840/src/porcupine/checker.go:159-167 | Removing a node changes one forward and one backward link, and leaves the links of nodes taken out earlier as they were |
| LinkedEntries.PutBackLinks | 6.5840/src/porcupine/checker.go:169-177 | From the links the removed node kept, the links before its removal come back exactly |
| LinkedEntries.CallHasSuccessor | 6.5840/src/porcupine/checker.go:160-161 | A call in the list always has a successor, so the unguarded write through `next` is safe |
| LinkedEntries.Lift | 6.5840/src/porcupine/checker.go:159-167 | The list becomes the original sequence without the pairs taken out so far and this one, no nil dereference |
| LinkedEntries.Unlift | 6.5840/src/porcupine/checker.go:169-177 | Undoes the last `Lift` exactly, so any last-in first-out sequence restores the list |
| Bitset.New | 6.5840/src/porcupine/bitset.go:10-17 | The empty set, with just enough words for the ids |
| Bitset.Clone | 6.5840/src/porcupine/bitset.go:19-23 | The same words in a new array: later changes of one do not show in the other |
| Bitset.Set | 6.5840/src/porcupine/bitset.go:29-33 | Adds one id to the set and nothing else |
| Bitset.Clear | 6.5840/src/porcupine/bitset.go:35-39 | Removes one id from the set and nothing else |
| Bitset.Get | 6.5840/src/porcupine/bitset.go:41-44 | Membership |
| Bitset.Popcnt | 6.5840/src/porcupine/bitset.go:46-52 | The cardinality of the set |
| Bitset.Hash | 6.5840/src/porcupine/bitset.go:54-60 | A function of the contents only: the exclusive or of the cardinality and all words, so equal bitsets have equal hashes |
| Bitset.HashBit | 6.5840/src/porcupine/bitset.go:54-60 | Bit k of the hash is the parity of bit k over the cardinality and all words |
| Bitset.WordHasValue | 6.5840/src/porcupine/bitset.go:54-60 | The word of the cardinality has its value modulo 2^64 |
| Bitset.Equals | 6.5840/src/porcupine/bitset.go:62-72 | True exactly for the same words, which for equal lengths is the same set of ids |
| Bitset.MembersDetermine | 6.5840/src/porcupine/bitset.go:62-72 | At a given length the set of ids determines the words |
| Cache.InItsBucket | 6.5840/src/porcupine/checker.go:145-152 | A recorded configuration can only be in the bucket of its hash, so looking in one bucket is enough |
| Cache.Table.Contains | 6.5840/src/porcupine/checker.go:145-152 | True exactly when a configuration with the same operations and an equal state was added before |
| Cache.Table.Add | 6.5840/src/porcupine/checker.go:201-202 | Adds one configuration to what the table stands for and keeps all others |
| Cursor.CallIsEnabled | 6.5840/src/porcupine/checker.go:194-196 | Every call the cursor reaches may come next: all operations that returned before it are ordered already |
| Cursor.ReturnEndsFrame | 6.5840/src/porcupine/checker.go:214-217 | When the cursor reaches a return, every operation that may come next has its call before the cursor |
| Cursor.NextAfterCall | 6.5840/src/porcupine/checker.go:208-213 | After a call the list goes on, at the latest with its own return: the cursor is never nil inside the loop |
| Cursor.PushSearch | 6.5840/src/porcupine/checker.go:200-207 | The loop invariant after ordering an operation and going back to the front of the list |
| Cursor.SkipSearch | 6.5840/src/porcupine/checker.go:208-213 | The loop invariant after moving past a call |
| Cursor.PopSearch | 6.5840/src/porcupine/checker.go:235-241 | The loop invariant after taking back the last operation and going on behind its call |
| CheckSingle.TryCall | 6.5840/src/porcupine/checker.go:195-213 | Enters exactly when the model accepts and no equal configuration is cached, and then caches exactly that configuration |
| CheckSingle.RecordLongest | 6.5840/src/porcupine/checker.go:218-234 | Each operation on the stack gets the current order when it had none or a shorter one; all other records stay |
| CheckSingle.RecordedAfterDeadEnd | 6.5840/src/porcupine/checker.go:218-234 | Recording only at dead ends is enough: every configuration that left the stack has records at least as long for all its operations |
| CheckSingle.StepCall | 6.5840/src/porcupine/checker.go:194-213 | One step at a call keeps the whole state invariant (list, stack, bitset, cache, walk) and enters a new configuration or moves the cursor forward |
| CheckSingle.StepReturn | 6.5840/src/porcupine/checker.go:235-241 | One step at a return keeps the whole state invariant with one operation fewer on the stack |
| CheckSingle.Begin | 6.5840/src/porcupine/checker.go:180-189 | The state invariant holds at the start, for the empty history too |
| CheckSingle.PrunedHasNoCompletion | 6.5840/src/porcupine/checker.go:190-213 | At every iteration a cached configuration is the one after some prefix of the calls stack, or no order of the remaining operations completes it |
| CheckSingle.OutcomeExists | 6.5840/src/porcupine/checker.go:281-285 | For every well-formed history there is a result that fits, so a worker can always return |
| CheckSingle.CheckSingle | 6.5840/src/porcupine/checker.go:179-253 | Ends on every history; true comes with a linearization in all records; false without a kill means not linearizable and, if asked for, longest records; records are valid partial linearizations in every case; the flag is read in every iteration, and the first load that finds it set, and nothing else, kills the run |
| MakeEntries.SortedIsWellFormed | 6.5840/src/porcupine/checker.go:39-46 | Whatever sorted permutation the sort returns is a well-formed history in which a return precedes a call exactly when `a.Return < b.Call` |
| MakeEntries.SameLinearizations | 6.5840/src/porcupine/checker.go:48-60 | Replacing time stamps by positions in the sorted entries keeps exactly the same linearizations |
| MakeEntries.MakeEntries | 6.5840/src/porcupine/checker.go:48-60 | A sorted permutation of the call and the return of every operation, each with its value, time, client and position as id; well-formed and with the same real-time order when each call is no later than its return |
| Events.RankIsInjective | 6.5840/src/porcupine/checker.go:92-106 | Different event ids get different numbers, the smaller for the id seen first |
| Events.RankIsDense | 6.5840/src/porcupine/checker.go:92-106 | Every number below the count of distinct ids is used |
| Events.Renumber | 6.5840/src/porcupine/checker.go:92-106 | Every event keeps all but its id, which becomes the number of distinct ids seen before its first occurrence |
| Events.RenumberingIsDense | 6.5840/src/porcupine/checker.go:92-106 | Renumbering keeps which events share an id and maps onto a range from 0, so bitset and record indices are in range |
| Events.ConvertEntries | 6.5840/src/porcupine/checker.go:108-119 | Entries correspond one to one to events, with positions as times |
| Events.EventsAreWellFormed | 6.5840/src/porcupine/checker.go:92-119 | Paired events, renumbered and converted, are a well-formed history for the search |
| LinearOrders.LinearizableByOrder | 6.5840/src/porcupine/model.go:5-11 | The definition by ids agrees with a second, independent one by permutations of the operations |
| Kv.StoreRunsKeyByKey | 6.5840/src/models/kv.go:35-54 | The whole store accepts an order exactly when each key accepts the part of it on that key |
| Reads.KeyAccepts | 6.5840/src/models/kv.go:35-54 | An order of one key's operations is accepted from a value exactly when every get returned the last put before it, or that value, followed by all appends in between, in order |
| Reads.StoreAccepts | 6.5840/src/models/kv.go:35-54 | The same for the whole store, with nothing under a key never written |
| Reads.LinearizableMeansConsistent | 6.5840/src/models/kv.go:17-54 | A history is linearizable against the store exactly when some rearrangement that keeps real time has every get return what was written |
| Kv.Restrict | 6.5840/src/models/kv.go:18-34 | A linear order of the store, restricted to a key, is a linear order of that key |
| Kv.Merge | 6.5840/src/porcupine/model.go:28-32 | Orders per key that each keep real time merge into one global order that keeps real time and gives each of them back |
| Kv.Locality | 6.5840/src/porcupine/model.go:28-32 | A history is linearizable against the store if and only if each part of its partition is linearizable against the one-key specification |
| Partition.SortStrings | 6.5840/src/models/kv.go:28-28 | A sorted permutation of the keys |
| Partition.BeforeIsLexicographic | 6.5840/src/models/kv.go:28-28 | One key comes before another exactly when at the first difference it has the smaller character or ends |
| Partition.Group | 6.5840/src/models/kv.go:19-23 | The map has exactly the keys that occur, each with its operations in history order |
| Partition.Split | 6.5840/src/models/kv.go:18-34 | One non-empty part per key that occurs, each key once, in key order |
| CheckParallel.VerdictIsTrue | 6.5840/src/porcupine/checker.go:281-285 | A verdict sent by a worker that saw no kill is the truth about its partition |
| CheckParallel.NextKeepsInv | 6.5840/src/porcupine/checker.go:291-318 | Every step of workers, collector and timer keeps the protocol invariant |
| CheckParallel.RunInv | 6.5840/src/porcupine/checker.go:274-310 | The invariant holds at the end of every run |
| CheckParallel.VerdictIsSound | 6.5840/src/porcupine/checker.go:342-351 | In every run: Ok only if all partitions are linearizable, Illegal only if one truly is not (a false caused by the kill flag never counts), Unknown only after the timer fired |
| CheckParallel.VerdictTellsWhatHappened | 6.5840/src/porcupine/checker.go:295-351 | Illegal exactly when the collector received a false verdict, even if the timer fired later; Unknown exactly when the timer fired and no false verdict was received before; Ok exactly when neither happened |
| CheckParallel.KillExactlyWhen | 6.5840/src/porcupine/checker.go:298-308 | The kill flag is set exactly when the timer fired or, without information to gather, a false verdict was received, and then the loop is left |
| CheckParallel.LeavesAtOnce | 6.5840/src/porcupine/checker.go:311-318 | Without information to gather, a collector that leaves its loop waits for nobody |
| CheckParallel.VerdictIsExact | 6.5840/src/porcupine/checker.go:342-351 | Without a timeout the result is Ok exactly when all partitions are linearizable, and Illegal otherwise |
| CheckParallel.NothingToCollect | 6.5840/src/porcupine/checker.go:291-310 | With no partitions and no timeout there is a run that cannot go on and whose collector never left its loop |
| CheckParallel.RunsAreBounded | 6.5840/src/porcupine/checker.go:280-318 | Whatever the scheduling, a run has at most three steps for each partition and two more |
| CheckParallel.MaximalIsDone | 6.5840/src/porcupine/checker.go:291-318 | With a partition or a timeout, a run that cannot go on is finished: no verdict is left waiting and nobody waits for one that never comes |
| CheckParallel.FinishesExactlyWhen | 6.5840/src/porcupine/checker.go:274-353 | Every check finishes within the bound if and only if there is a partition or a timeout |
| CheckParallel.PartialsAreValid | 6.5840/src/porcupine/checker.go:311-341 | Every order handed on is a partial linearization of its partition, also after a timeout |
| CheckParallel.PartialsAreLongest | 6.5840/src/porcupine/checker.go:319-338 | Without a timeout each operation's record is a longest order that contains it |
| Visualization.ReadHistory | 6.5840/src/porcupine/visualization.go:37-53 | Each operation gets client, start and end from its own two entries, and its input and output |
| Visualization.Replay | 6.5840/src/porcupine/visualization.go:62-79 | Each step has the state after the operations up to there; the panic for a rejected step is unreachable |
| Visualization.UpdateLargest | 6.5840/src/porcupine/visualization.go:73-76 | The index stays right for one more order, even though it is updated while the order is replayed |
| Visualization.ComputeVisualizationData | 6.5840/src/porcupine/visualization.go:33-87 | Longest orders first, each replayed in full; `Largest` has an index exactly for the operations in some order, of the first longest one |
| Visualization.LargestIsLongest | 6.5840/src/porcupine/visualization.go:54-79 | After a check that was not cut short, `Largest` points to a longest order among all partial linearizations that contain the operation, and is missing exactly when there is none |
| CheckOperations.Prepare | 6.5840/src/porcupine/checker.go:365-373 | One well-formed entry list per key, each with the operations and real-time order of that key; there is none exactly for the empty history |
| CheckOperations.PartsTogether | 6.5840/src/porcupine/checker.go:365-373 | All entry lists are linearizable exactly when the history is, against the whole store |
| CheckOperations.CheckIsCorrect | 6.5840/src/porcupine/checker.go:365-373 | In every run, Ok means that the history is linearizable against the whole store, that is, has an order in which every get returns what was written; Illegal that it is not; Unknown only with a timeout |
| CheckOperations.CheckFinishes | 6.5840/src/porcupine/checker.go:365-373 | Every check of a key/value history finishes if and only if the history is not empty or there is a timeout |
| CheckEvents.Prepare | 6.5840/src/porcupine/checker.go:355-363 | One entry for each event, in the same order, with the position as time and the id replaced by its number |
| CheckEvents.SameLinearizability | 6.5840/src/porcupine/checker.go:355-363 | Paired events are linearizable, with event indices as real time and original ids, exactly when the history of their entries is |
| CheckEvents.CheckIsCorrect | 6.5840/src/porcupine/checker.go:355-363 | Every check of paired events that cannot go on is finished; Ok means that the events are linearizable, Illegal that they are not, Unknown only with a timeout |
| Durability.WithinContains | 6.5840/src/raft/persister.go:51-58 | Being behind a persister in order and number implies that each save is there |
| Durability.StepGrows | 6.5840/src/raft/persister.go:30-58 | No step takes a save away from behind a persister or changes the order of saves; new ones come at the end |
| Durability.CallKeepsConfig | 6.5840/src/kvraft/config.go:255-323 | Under the three rules, each step of a shutdown or start keeps that a registered instance writes to its server's current persister and that at most one call on a server is busy |
| Durability.PassingMeansSaved | 6.5840/src/labrpc/labrpc.go:264-270 | When the last check finds the server alive, the saves of the handler are behind the current persister and no copy that lacks them is about to replace it |
| Durability.NextKeepsInv | 6.5840/src/kvraft/config.go:255-323 | Under the three rules, every step of every call, request and handler keeps that a reply let through has its saves behind the current persister and behind any copy about to replace it |
| Durability.RunInv | 6.5840/src/labrpc/labrpc.go:264-291 | That holds in every state of every run under the three rules, with calls on one server and on others interleaved |
| Durability.AcknowledgedIsDurable | 6.5840/src/labrpc/labrpc.go:264-291 | From the moment the last check lets a reply through, whether it is sent, held back or received, the current persister has all saves of the handler behind it, in order and number |
| Durability.AcknowledgedIsHandedOn | 6.5840/src/kvraft/config.go:303-315 | Every instance made from that moment on, also while the reply is held back, is started with a state that has those saves behind it |
| Restarts.StartedTwice | 6.5840/src/kvraft/config.go:286-287 | Without the rule on registered servers, a second start leaves the registered instance writing to a superseded persister |
| Restarts.StartsOverlap | 6.5840/src/kvraft/config.go:313-322 | Without the rule on overlapping starts, so does a start that begins before another has registered its instance |
| Restarts.ShutdownOverlaps | 6.5840/src/kvraft/config.go:255-284 | Without the rule on overlapping shutdowns, so does a shutdown that begins before a start has registered its instance |
| Restarts.TornLosesSave | 6.5840/src/labrpc/labrpc.go:264-291 | From there a client gets a positive answer for a save that the current persister lacks |
| Restarts.DurableExactlyWhenStrict | 6.5840/src/kvraft/config.go:255-323 | Acknowledged saves are durable in all runs if and only if all three rules are kept |
| Writers.OneWriter | 6.5840/src/kvraft/config.go:269-275 | Under the three rules at most one instance writes to a server's current persister, and it is registered, about to be, or being shut down: an old instance never writes over the state of a new one |
| Traffic.ContentIsLastSave | 6.5840/src/raft/persister.go:30-58 | In every run, through all copies, a persister reads back both parts of the last save behind it |
| Traffic.RequestsAndBytes | 6.5840/src/labrpc/labrpc.go:218-309 | In every run each accepted request is dispatched at most once and answered at most once, a positive answer has the bytes of that dispatch, and the byte total is accepted argument bytes plus released reply bytes |
| Traffic.PositiveAnswerSawServerAlive | 6.5840/src/labrpc/labrpc.go:208-216 | Before a positive answer there was a moment, after the handler returned, at which the instance read at the start was registered and the end enabled |
| Traffic.DeadMeansNeverPositive | 6.5840/src/labrpc/labrpc.go:264-274 | A request whose end is disabled or whose instance is unregistered from before its reply is let through never gets a positive answer |
| Traffic.NegativeAnswerHasReason | 6.5840/src/labrpc/labrpc.go:218-307 | Before every negative answer there was a moment at which the request had no route, its server was dead, or the network was unreliable when it was read |
| Traffic.DispatchSawServer | 6.5840/src/labrpc/labrpc.go:192-221 | A handler is called only on the instance that was registered for the server connected to the end, which was enabled, when the request was read |
| Traffic.SwitchesWork | 6.5840/src/labrpc/labrpc.go:192-206 | What is enabled, connected or set changes at once by the switch for it, and by nothing else |
| Traffic.ReadGivesLastSave | 6.5840/src/raft/persister.go:39-64 | After a save, the persister of that instance reads both parts saved, and every other reads as before |
| Traffic.LockExcludes | 6.5840/src/kvraft/config.go:255-288 | While a call holds the configuration's lock no other begins or comes to its end |
| Answers.PositiveExactlyWhen | 6.5840/src/labrpc/labrpc.go:264-291 | Once the handler has returned, a positive answer is possible exactly while the server is alive |
| Answers.NegativeExactlyWhen | 6.5840/src/labrpc/labrpc.go:250-277 | A negative answer is then possible exactly when the server is dead or the network was unreliable |
| Answers.DelayedExactlyWhen | 6.5840/src/labrpc/labrpc.go:278-287 | A reply can be held back exactly when the server is alive and replies may be reordered |
| Answers.DelayedIsReleased | 6.5840/src/labrpc/labrpc.go:284-287 | A reply held back is released whatever became of the server, and is never turned into a negative one |
| Answers.ReplyReachesClient | 6.5840/src/labrpc/labrpc.go:239-253 | The client can get exactly the bytes the handler returned |
| Answers.DispatchExactlyWhen | 6.5840/src/labrpc/labrpc.go:219-242 | The handler is called exactly when the end is enabled and connected to a registered server |
| Answers.RefusedExactlyWhen | 6.5840/src/labrpc/labrpc.go:221-232 | Without the handler a request is refused exactly when it has no route or the network is unreliable |
| Framing.DecodeIsLittleEndian | go-server/gnet/msg_serializer.go:55-61 | The four bytes of a number come with the least significant first |
| Framing.DecodeEncode | go-server/gnet/msg_serializer.go:35-41 | Decoding an encoded number gives it back |
| Framing.EncodeDecode | go-server/gnet/msg_serializer.go:55-61 | Encoding a decoded number gives the four bytes back |
| Framing.Pack | go-server/gnet/msg_serializer.go:32-48 | The packet is length, id and data, in that order |
| Framing.Unpack | go-server/gnet/msg_serializer.go:51-66 | The header, or an error exactly for a short packet or a length over the limit |
| Framing.StartReader | go-server/gnet/conn.go:53-97 | The loop pushes exactly the complete messages within the limit, up to the first that is not |
| Framing.ReadPacket | go-server/gnet/conn.go:59-84 | Reading a packet followed by any bytes gives the message and leaves exactly those bytes, or fails when it is over the limit |
| Framing.RoundTrip | go-server/gnet/msg.go:11-17 | A list of ids and data, made into messages, packed and read back, arrives with the same ids, data and lengths if and only if no data is over the limit |
| Framing.Repack | go-server/gnet/conn.go:59-95 | For any byte stream, packing the delivered messages again gives back a prefix; the rest does not start with a complete message within the limit |
| WorkerPool.NextKeepsInv | go-server/gnet/req_handler.go:70-92 | Every step keeps that, per connection, what was pushed is what was handled, then what is in hand, then what is queued |
| WorkerPool.HandledInOrder | go-server/gnet/req_handler.go:61-92 | In every run what a connection pushed is what was handled, then what is in hand, then what is queued at worker `connId % poolSize`; its requests are handled one after the other, and no queue is over its capacity |
| WorkerPool.RequestsAreAtTheirWorker | go-server/gnet/req_handler.go:85-91 | In every run a request waits at, or is in the hands of, worker `connId % poolSize` and no other |
| WorkerPool.SharedWorker | go-server/gnet/req_handler.go:87-87 | Two connections share a worker exactly when their ids differ by a multiple of the pool size |
| WorkerPool.PushExactlyWhen | go-server/gnet/req_handler.go:91-91 | A send goes through exactly when the queue has room or the worker waits at an empty queue |
| WorkerPool.AllGetHandled | go-server/gnet/req_handler.go:71-81 | From every reachable state the workers alone can go on until every request pushed is handled, in order |
| BoundedBuffer.NextKeepsInv | java-concurrent/src/test/java/com/bronya/concurrent/ProducerConsumerTest.java:106-163 | Every step of any thread, spurious wake-ups included, keeps that a waiting thread has a reason to wait or is about to be woken |
| BoundedBuffer.FirstInFirstOut | java-concurrent/src/test/java/com/bronya/concurrent/ProducerConsumerTest.java:106-163 | In every run the list stays within its capacity and what was produced is what was consumed, in that order, followed by the list |
| BoundedBuffer.WaitersHaveReason | java-concurrent/src/test/java/com/bronya/concurrent/ProducerConsumerTest.java:177-233 | Whenever the lock is free, a waiting producer faces a full list and a waiting consumer an empty one, in both forms of waiting |
| BoundedBuffer.AlwaysProgress | java-concurrent/src/test/java/com/bronya/concurrent/ProducerConsumerTest.java:177-233 | In every reachable state some thread is not waiting and some thread can go on without a spurious wake-up |
| BoundedBuffer.NotifyWakesExactly | java-concurrent/src/test/java/com/bronya/concurrent/ProducerConsumerTest.java:177-233 | A notification wakes all waiting threads with one wait set, and exactly those of the other role with two conditions |
| BoundedBuffer.AnyWaiterCanWake | java-concurrent/src/test/java/com/bronya/concurrent/ProducerConsumerTest.java:115-124 | A waiting thread may wake up spuriously in every reachable state |
| SubarrayOr.DiffIsDistance | go-leetcode/src/solution3171.go:8-13 | The 64-bit `abs(v - k)` is the true distance exactly when that distance fits |
| SubarrayOr.OrBits | go-leetcode/src/solution3171.go:22-24 | The or has exactly the bits that one of the numbers has, in two's complement |
| SubarrayOr.OrGrows | go-leetcode/src/solution3171.go:15-18 | A longer subarray with the same end has all bits of a shorter one |
| SubarrayOr.NothingNewBefore | go-leetcode/src/solution3171.go:22-22 | The early exit is sound: when a number adds nothing to the subarray from `j`, it adds nothing to any that starts earlier |
| SubarrayOr.AllDistancesExact | go-leetcode/src/solution3171.go:20-27 | For non-negative numbers no distance of a subarray overflows if and only if that of the or of all numbers does not |
| SubarrayOr.AnswerIsRightExactly | go-leetcode/src/solution3171.go:5-29 | For non-negative numbers the answer is the least true distance if and only if nothing overflows or, in terms of the smallest number and the or of all, every overflow is harmless |
| SubarrayOr.OverflowGivesNegative | go-leetcode/src/solution3171.go:8-21 | For the largest number alone and -1 the answer is negative |
| SubarrayOr.MinimumDifference | go-leetcode/src/solution3171.go:5-29 | The result is the least 64-bit difference over all subarrays (the largest int for none), the least true distance for non-negative numbers when the largest distance fits, and the array ends with the or of every suffix |

## Left out

- CheckSingle.CheckSingle: does not model histories in which an id lacks a call or return or returns before its call; the checker's input contract excludes them. It takes `Step` as a function, as its contract asks, and the loads of the kill flag as a parameter.
- CheckSingle.RecordLongest: does not model that several records share one slice; records are values, and the set of unique pointers in `checkParallel` is the set of different orders.
- LinkedEntries.Lift: its pointer writes are calls of one-line methods, and the nil check on the node after a call is shared with the one after its return; that the original's unguarded write is safe is proved as `LinkedEntries.CallHasSuccessor`.
- Bitset.Hash: words are given by their 64 bits, not by a machine integer; the number of bits enters the hash modulo 2^64.
- MakeEntries.MakeEntries: does not model the algorithm of `sort.Sort`; the well-formedness result is proved for every sorted permutation.
- CheckEvents.CheckIsCorrect: does not model a partition of event histories other than the default, which makes one part.
- Visualization.ComputeVisualizationData: does not model description strings, HTML, JSON or file output, and covers one partition at a time.
- Durability.NextKeepsInv: a call begins, for the three rules, when it gets the configuration's lock; the array of server objects and what killing one does are not modelled, and a killed instance may go on saving.
- Durability.StepGrows: is about each persister and not about which one is current, since a save that an old instance makes between the copy and the switch stays behind with the old persister; saves behind replies let through do not, by `Durability.AcknowledgedIsDurable`.
- Partition.BeforeIsLexicographic: compares characters, where the original compares the bytes of their encoding.
- Traffic.RequestsAndBytes: does not model the 32-bit and 64-bit wrap-around of the two counters.
- Traffic.ContentIsLastSave: persisters are values in the state of the protocol, not objects; the lists of saves behind them are bookkeeping of the model.
- Encoding of arguments and replies, reflection in `MakeService` and `dispatch` (with the fatal error for an unknown method), and `Cleanup` of the network: payloads are opaque bytes and the network is never destroyed.
- Delays, random probabilities and timers of the network: every outcome they can have is a possible step.
- The Raft, kvraft, shardctrler, shardkv and MapReduce code: the bodies are stubs, so a handler is any sequence of saves followed by a return.
- gnet connection shutdown, routing hooks, the branch that reads without the serializer and the mode without a worker pool: socket lifecycle, with no order to prove.
- Interrupts in the producer/consumer test, the fixed counts of its loops, and its other variants.
- The other exercises, front ends, sockets, database and messaging code: easy members or library wrappers.

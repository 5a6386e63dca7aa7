# Telux common and CV2X helpers: a verified model

This project models three headers of the telux library whose logic is complete in the header, and
proves what they promise.

* **`common/AsyncTaskQueue.hpp`** keeps futures alive and runs deferred ones in order on one lazily
  created worker thread. It is a protocol between threads, so it is a state machine over their steps
  (`AsyncTaskProtocol`): every client in `add`, every worker ever created, the destructor, and an
  environment that makes futures ready and wakes blocked threads for no reason, interleaved at will.
  `OrderedQueueSafety` and `KeepAliveSafety` hold what each step keeps, `AsyncTaskRuns` what follows
  for all reachable states, `AsyncTaskProgress` how the worker drains the queue and shuts down,
  `AsyncTaskDelivery` and `AsyncTaskClients` that every future handed to `add` reaches its queue and
  that `add` returns, and `AsyncTaskLostShutdown` a run in which the destructor waits for ever.
  `AsyncTaskQueue` is the object itself, with the erase loop in place; `AsyncTaskTurns` shows that
  each thread, left alone, does in the protocol what the code does in one go.
* **`common/ListenerManager.hpp`** keeps listeners by weak pointer, in a vector and in ordered sets
  by indication. Objects have an identity and an address; a snapshot is the set of objects alive at
  one instant, and each `lock()` sees a snapshot of its own (`WeakPointers`). `VectorRegistry` and
  `IndicationRegistry` relate the two registries to the plain set and relation they stand for;
  `ListenerSet` is one `std::set` under its expiry-dependent comparator, for every shape of the
  search tree and with expiries between comparisons; `ListenerSetLimits` says exactly when its
  searches are right, `ListenerSetTrees` what they do when expired entries stand anywhere, and
  `IndicationLimits` what both mean for calls and runs; `IndicationAlgebra` has the laws of
  registering by mask. `ListenerManager` is the object, with its loops.
* **`cv2x/Cv2xRadioHelper.hpp`**, `convertNasV2xStatusMsg`, folds a partial modem message into a
  cached status and says whether it changed. `Cv2xStatusMerge` says what a merge is, pool by pool,
  and proves the laws of single messages and of histories; `Cv2xRadioHelper` has the two loops in
  place, their 8-bit counter, and what the returned flag is good for.

Results worth knowing before changing the code:

* `notify_one` is never lost, because clients push and notify under the mutex. The destructor's
  `notify_all` can be: it and the flag are outside the mutex. The worker exits by its own steps if
  and only if `notify_all` does not fall between its predicate test and its block
  (`WorkerExitsIffNotNotifiedInTheGap`); it suffices that the flag is not written there
  (`AtomicFlagWriteSuffices`).
* The comment on `add` says that every call purges first; the code purges only for a future that is
  not deferred, and the model follows the code.
* In every tree, searches in the indication sets are right for all live listeners if and only if the
  expired entries form a prefix of the stored order (`SearchIsExactIffExpiredPrefix`). Otherwise a
  live listener can be stored twice and can not be erased (`ExpiredEntryHidesListener`), and erasing
  one can take another live one with it (`EraseTakesAnotherLive`). For one listener the exact
  condition is that no expired node has it in its left subtree, and that the left edge of the
  subtree right of it is alive (`StoredIsFoundIffClear`). Registering never loses a stored entry
  while nothing expires, wherever expired entries stand (`RegisterLosesNothingWhileStill`).
* Even with that prefix at both ends of a call, an expiry between two comparisons can do harm.
  `insert` compares its key with the parent once more to choose a side; if the parent expires just
  then, the new entry replaces the right subtree, and live listeners in it are lost
  (`PlacementRaceLosesListener`). That can happen in exactly the trees in which some larger entry
  expires during the call, has no left child, and has a live listener to its right
  (`InsertKeepsLiveIffNotFragile`, `RegisterRefinesIffNoneFragile`). `erase` can count an expired entry, so that `deRegisterListener` answers SUCCESS for a
  listener that was not registered (`RaceErasesAnother`); that can happen if and only if a larger
  stored listener expires during the call (`MissingCanBeErasedIffLargerExpires`,
  `IndicationLimits.DeregisterStatusIsExact`). Everything else about stored live listeners is exact
  whatever expires meanwhile.
* The two `getAvailableListeners` differ: the plain one appends and drops expired entries, the one
  by indication replaces the vector, includes expired entries, and leaves the vector alone for an
  indication that was never registered.
* A pool report longer than 255 rows makes the loop under its `uint8_t` counter run for ever
  (`PoolLoopExitsIffLengthFits`).

## Parameters of the model

* `convertV2xCause` is an arbitrary function. Status codes keep their number through the casts.
* Futures: the answer of `wait_until` at the entry of `add` and the set of ready futures are inputs;
  readiness never goes away. `get` returns eventually, without an exception.
* Mutexes and condition variables: unlock-and-block is one step, spurious wake-ups are possible,
  `notify_one` wakes one blocked thread if there is one.
* Liveness: which objects each `lock()` finds alive is an input. Objects alive together have
  different addresses, an object that died is never alive again, and one that a call has locked
  stays alive until it returns.
* `std::set`: the stored sequence is searched through a tree of arbitrary shape, with the
  comparisons that libstdc++ makes: for `insert` those of the descent, one with the predecessor and
  one with the parent (which chooses the side, and replaces what is there), for `erase` those of
  `equal_range`.

## Model

| member | source | states |
|---|---|---|
| AsyncTaskRuns.NoTaskWakeUpIsLost | common/AsyncTaskQueue.hpp:98-127 | in every reachable state, a blocked worker has an empty queue unless a client is inside the ordered mutex |
| AsyncTaskRuns.OrderedFuturesAreConserved | common/AsyncTaskQueue.hpp:90-130 | deferred futures pushed = finished, then at most one in flight, then the queue; gets are called and return one at a time in that order; the queue is never read when empty |
| AsyncTaskRuns.RunLogIsSequential | common/AsyncTaskQueue.hpp:116-129 | the log of get calls alternates call and return of the k-th future |
| AsyncTaskRuns.AtMostOneWorker | common/AsyncTaskQueue.hpp:98-105 | however many clients add, at most one worker is created, and queued futures have one once the mutex is free |
| AsyncTaskRuns.MutualExclusion | common/AsyncTaskQueue.hpp:98-112 | at most one thread is in each critical section |
| AsyncTaskRuns.ExitLeavesExactlyTheQueue | common/AsyncTaskQueue.hpp:119-128 | a worker that leaves holds no future; what never ran is exactly the queue, a suffix of the adds |
| AsyncTaskRuns.KeepAliveQueueIsSuffix | common/AsyncTaskQueue.hpp:106-112 | the keep-alive queue is a suffix of the async adds and everything dropped had become ready |
| AsyncTaskRuns.HeadWasUnreadyAfterAdd | common/AsyncTaskQueue.hpp:110-111 | right after a push the queue is the new future alone or its head was unready when the purge ended |
| AsyncTaskClients.HeadWasUnreadyAtLock | common/AsyncTaskQueue.hpp:106-112 | every add of a future that is not deferred purges first: the head that it leaves is its own future or was unready when it took the lock |
| AsyncTaskRuns.InvAlong | common/AsyncTaskQueue.hpp:75-130 | the protocol invariant holds along every interleaving |
| OrderedQueueSafety.OrderedStepKeepsInv | common/AsyncTaskQueue.hpp:75-130 | every step of client, worker, destructor and environment keeps locks, conservation, wake-ups and shutdown |
| KeepAliveSafety.TasksStepKeepsInv | common/AsyncTaskQueue.hpp:106-112 | every step keeps the keep-alive side's lock and what a purge may have erased |
| AsyncTaskProgress.WorkerCanMove | common/AsyncTaskQueue.hpp:115-130 | while something is queued or in flight and no client is inside, the worker has a step and is not blocked |
| AsyncTaskProgress.DrainMeasureFalls | common/AsyncTaskQueue.hpp:115-130 | until drained, each worker step lowers queue length and program point; no environment step raises them |
| AsyncTaskProgress.WorkerDrainsTheQueue | common/AsyncTaskQueue.hpp:115-130 | without further adds every run with enough worker steps has run all added futures in order |
| AsyncTaskProgress.WorkerExits | common/AsyncTaskQueue.hpp:75-82 | after notify_all a worker outside test-and-block exits within seven own steps in every run, and the destructor returns |
| AsyncTaskProgress.BlockedWorkerStays | common/AsyncTaskQueue.hpp:75-82 | a worker blocked after notify_all stays so, and the destructor does not finish, without a spurious wake-up |
| AsyncTaskProgress.SpuriousWakeRescues | common/AsyncTaskQueue.hpp:75-120 | a spurious wake-up, always possible then, ends the wait: the worker exits and the destructor returns |
| AsyncTaskProgress.WorkerExitsIffNotNotifiedInTheGap | common/AsyncTaskQueue.hpp:77-123 | the worker exits by its own steps if and only if notify_all is not called between its test and its block |
| AsyncTaskProgress.AtomicFlagWriteSuffices | common/AsyncTaskQueue.hpp:75-120 | if the flag was not written between test and block, in every run without clients the worker exits within seven own steps and the destructor returns |
| AsyncTaskLostShutdown.ShutdownWakeUpCanBeLost | common/AsyncTaskQueue.hpp:77-120 | a reachable state in which destructor and worker wait for ever |
| AsyncTaskDelivery.EveryAddIsDelivered | common/AsyncTaskQueue.hpp:90-113 | in every run each client's futures are pushed once, in its order, to the queue that `wait_until` chose, but for the one it is still adding |
| AsyncTaskClients.OrderedClientCanMove | common/AsyncTaskQueue.hpp:98-105 | a client adding a deferred future can move unless it waits for a mutex that is held |
| AsyncTaskClients.AsyncClientCanMove | common/AsyncTaskQueue.hpp:106-112 | the same for any other future |
| AsyncTaskClients.WorkerCanMoveUnlessWaiting | common/AsyncTaskQueue.hpp:115-130 | a worker can move unless it is blocked, has exited, or waits for a mutex that is held |
| AsyncTaskClients.DestructorCanMove | common/AsyncTaskQueue.hpp:75-82 | the destructor waits for nothing but, in its join, the exit of the worker |
| AsyncTaskClients.HolderCanMove | common/AsyncTaskQueue.hpp:98-127 | whoever holds a mutex can move |
| AsyncTaskClients.AddNeverDeadlocks | common/AsyncTaskQueue.hpp:90-113 | while a client is inside add, it or the thread that it waits for can move |
| AsyncTaskClients.OrderedAddFinishes | common/AsyncTaskQueue.hpp:98-105 | in every run a client leaves add with its fifth own step, its deferred future pushed |
| AsyncTaskClients.AsyncAddFinishes | common/AsyncTaskQueue.hpp:106-112 | in every run a client past the lock leaves add within one step for each queued future and three more, its future pushed |
| AsyncTaskTurns.OrderedAddAlone | common/AsyncTaskQueue.hpp:90-105 | a deferred add, left alone, is possible with a free mutex and does to all of the state what the object's add does |
| AsyncTaskTurns.AsyncAddAlone | common/AsyncTaskQueue.hpp:106-112 | any other add, left alone, purges as the object does, pushes, and changes nothing else |
| AsyncTaskTurns.PurgeAlone | common/AsyncTaskQueue.hpp:146-176 | the loop steps of a client drop from the queue what the object's purge drops |
| AsyncTaskTurns.WorkerRunsFront | common/AsyncTaskQueue.hpp:115-130 | a turn of the worker takes the front, runs it, and changes nothing else |
| AsyncTaskTurns.WorkerBlocks | common/AsyncTaskQueue.hpp:119-120 | with an empty queue a turn ends blocked and changes nothing else |
| AsyncTaskTurns.WorkerLeaves | common/AsyncTaskQueue.hpp:121-123 | with the flag set a turn ends with the exit and changes nothing else |
| AsyncTaskTurns.DestructorAlone | common/AsyncTaskQueue.hpp:75-82 | the destructor sets the flag, wakes a blocked worker and reaches its join, or its end without a worker |
| AsyncTaskClients.ReadinessIsExplained | common/AsyncTaskQueue.hpp:94-129 | a future is ready exactly when it was before, the environment made it so, or the worker ran it |
| AsyncTaskTurns.AnyCanBecomeReady | common/AsyncTaskQueue.hpp:94-157 | at any moment any futures may become ready |
| AsyncTaskDelivery.WorkerRunsWhatWasAdded | common/AsyncTaskQueue.hpp:90-130 | what is finished, in flight and queued is what the clients pushed as deferred, in push order |
| AsyncTaskDelivery.FinishedAreReady | common/AsyncTaskQueue.hpp:129-129 | in every reachable state each future whose get returned to the worker is ready |
| AsyncTaskQueue.AsyncTaskQueue.PurgeCompleted | common/AsyncTaskQueue.hpp:138-177 | the in-place loop leaves the purged queue |
| AsyncTaskQueue.AsyncTaskQueue.Add | common/AsyncTaskQueue.hpp:90-113 | a deferred future joins the ordered queue and there is a worker; any other joins the purged keep-alive queue |
| AsyncTaskQueue.AsyncTaskQueue.TakeNext | common/AsyncTaskQueue.hpp:119-127 | the worker leaves when shutting down, else takes the front and nothing else |
| AsyncTaskQueue.PurgeLeavesSuffix | common/AsyncTaskQueue.hpp:146-176 | a purge leaves exactly the suffix from the first future not finished at its check |
| AsyncTaskQueue.PurgeDropsSome | common/AsyncTaskQueue.hpp:146-176 | what a purge drops was finished at its check, and the remaining head was not |
| AsyncTaskQueue.DroppedStayFinished | common/AsyncTaskQueue.hpp:146-176 | with growing readiness all dropped futures are finished at the end, and a purge never drops more than one at the end would |
| ListenerManager.ListenerManager.RegisterListener | common/ListenerManager.hpp:43-65 | registers a live listener once, answering SUCCESS, ALREADY or INVALIDPARAM |
| ListenerManager.ListenerManager.DeRegisterListener | common/ListenerManager.hpp:67-89 | the in-place loop leaves the entries alive when examined, without the listener |
| ListenerManager.ListenerManager.GetAvailableListeners | common/ListenerManager.hpp:91-107 | appends the live entries to the caller's vector and drops the others |
| ListenerManager.ListenerManager.RegisterListenerFor | common/ListenerManager.hpp:110-123 | inserts a live listener into the set of each selected bit and touches nothing else |
| ListenerManager.ListenerManager.DeRegisterListenerFor | common/ListenerManager.hpp:126-148 | erases it from the set of each selected bit that exists, SUCCESS if any erased |
| VectorRegistry.VectorRegistrySimulatesSet | common/ListenerManager.hpp:43-107 | after every run with interleaved expiries the live entries are the insertion-ordered set, without duplicates |
| VectorRegistry.CallsAnswerAsTheSet | common/ListenerManager.hpp:43-107 | the statuses and listings of a run are those that set dictates |
| VectorRegistry.RegisterIsInsertion | common/ListenerManager.hpp:43-65 | registering inserts into the live set at the end and answers as it dictates |
| VectorRegistry.RegisterAppends | common/ListenerManager.hpp:52-64 | registering keeps every stored entry, expired ones too, and appends the listener exactly with SUCCESS |
| VectorRegistry.KeptIsRemoval | common/ListenerManager.hpp:70-82 | to every later moment an erasing pass has removed exactly the listener |
| VectorRegistry.KeptEntryByEntry | common/ListenerManager.hpp:70-82 | an erasing pass judges each entry by itself, at its own instant, and keeps the order |
| VectorRegistry.DeregisterStatusIsExact | common/ListenerManager.hpp:83-88 | SUCCESS only for a listener in the live set at the start, NOSUCH only for one not in it at the end |
| VectorRegistry.DeregisterAnswersAsListing | common/ListenerManager.hpp:70-88 | SUCCESS exactly for a listener that a listing at the same instants shows |
| VectorRegistry.ListingIsBetween | common/ListenerManager.hpp:95-106 | a listing lies between the live sets at its start and end, in order, and equals them if nothing expires |
| ListenerSet.SetPredicateIsStrictWeakOrder | common/ListenerManager.hpp:164-179 | a strict weak order for each liveness, and equality on live listeners |
| ListenerSet.OrderedIffExpiredPrefix | common/ListenerManager.hpp:164-179 | after expiries a stored sequence is ordered if and only if the expired entries form a prefix |
| ListenerSet.InsertAddsExactlyOnce | common/ListenerManager.hpp:119-119 | for every tree and expiries between any two comparisons, insert recognises a stored listener and adds another one once, in order; it keeps the other live ones unless the tree is fragile, and everything unless a larger entry expires |
| ListenerSet.EraseRemovesExactly | common/ListenerManager.hpp:137-137 | erase removes exactly a stored listener; for another one it removes no live entry, and counts only if a larger entry expired meanwhile |
| ListenerSetLimits.SearchIsExactIffExpiredPrefix | common/ListenerManager.hpp:119-137 | in every tree, insert is right for all live listeners if and only if the expired entries form a prefix, and so is erase |
| ListenerSetLimits.ExpiredEntryHidesListener | common/ListenerManager.hpp:119-137 | without the prefix a registered live listener is stored twice and not erased |
| ListenerSetLimits.MissingCanBeErasedIffLargerExpires | common/ListenerManager.hpp:137-137 | in every tree, erasing a listener that is not stored can count something if and only if a larger stored entry expires during the call |
| ListenerSetLimits.RaceErasesAnother | common/ListenerManager.hpp:137-137 | an entry that expires between two comparisons is counted for another listener |
| ListenerSetLimits.InsertKeepsLiveIffNotFragile | common/ListenerManager.hpp:119-119 | in every tree, insert loses no live listener, whenever entries expire, if and only if no larger expiring entry without a left child has a live listener to its right |
| ListenerSetLimits.PlacementRaceLosesListener | common/ListenerManager.hpp:119-119 | an expiry before the last comparison of an insert drops a live registered listener |
| ListenerSetTrees.InsertLosesOnlyWhatItReplaces | common/ListenerManager.hpp:119-119 | in every tree and whatever expires, insert changes nothing, or adds the key once and loses exactly the subtree that it replaces |
| ListenerSetTrees.ReplacedNeedsChange | common/ListenerManager.hpp:119-119 | there is no such subtree unless some entry compares with the key in two ways during the call |
| ListenerSetTrees.StillInsertFindsGap | common/ListenerManager.hpp:119-119 | while nothing expires, in every tree, insert declines a stored key or puts it after an expired or smaller and before a live larger entry |
| ListenerSetTrees.StillInsertLosesNothing | common/ListenerManager.hpp:119-119 | while nothing expires, in every tree, insert leaves the set as it was or with one entry more |
| ListenerSetTrees.EraseTakesWhatItCounts | common/ListenerManager.hpp:137-137 | in every tree and whatever expires, erase removes as many entries as it counts |
| ListenerSetTrees.StillEraseOfMissing | common/ListenerManager.hpp:137-137 | while nothing expires, in every tree, erasing a listener that is not stored counts and changes nothing |
| ListenerSetTrees.StillEraseOfStored | common/ListenerManager.hpp:137-137 | while nothing expires, in every tree, a stored listener is erased if and only if no expired node has it on its left, with what stands before the next entry found alive and larger |
| ListenerSetTrees.StoredIsFoundIffClear | common/ListenerManager.hpp:119-137 | a stored listener is recognised by insert, and erased alone, if and only if the tree is clear for it |
| ListenerSetTrees.EraseTakesAnotherLive | common/ListenerManager.hpp:137-137 | erasing one live listener takes another live one with it |
| IndicationRegistry.RegisterAdds | common/ListenerManager.hpp:117-121 | registering adds the listener to exactly the selected bits, keeps them sorted, and keeps the other live listeners unless a selected tree is fragile |
| IndicationRegistry.DeregisterRemoves | common/ListenerManager.hpp:134-142 | deregistering removes it from exactly the selected bits, as far as live listeners go |
| IndicationLimits.RegisterBringsInOnly | common/ListenerManager.hpp:117-121 | wherever expired entries stand and whatever expires, registering leaves other bits alone and brings in nothing but the listener |
| IndicationLimits.RegisterLosesNothingWhileStill | common/ListenerManager.hpp:117-121 | while nothing expires, wherever expired entries stand, registering loses no stored entry |
| IndicationLimits.DeregisterReportsWhatItTakes | common/ListenerManager.hpp:132-147 | wherever expired entries stand, other bits stay, SUCCESS exactly when a set has shrunk, and while nothing expires a set without the listener stays |
| IndicationLimits.DeregisterStatusIsExact | common/ListenerManager.hpp:132-147 | every call answers SUCCESS for a stored listener; for another one NOSUCH is always possible, and SUCCESS if and only if a larger listener of a selected set expires during the call |
| IndicationRegistry.IndexRefinesRelation | common/ListenerManager.hpp:110-148 | after every run whose registrations meet no fragile tree the index agrees with the plain relation on all live listeners, stays sorted, and has the requested bits |
| IndicationLimits.DeregisterAnswersAsTheRelation | common/ListenerManager.hpp:126-148 | after such a run SUCCESS is certain for a related listener; for another one NOSUCH is always possible, and SUCCESS if and only if a larger listener expires during the call |
| IndicationLimits.RegisterRefinesIffNoneFragile | common/ListenerManager.hpp:110-123 | after such a run registering keeps the agreement, whenever entries expire, if and only if no selected tree is fragile |
| IndicationRegistry.ListingIsTheRelation | common/ListenerManager.hpp:151-156 | the live part of a listing is the related live listeners once each by address; unrequested bits leave the vector |
| IndicationAlgebra.RegistrationIsJoin | common/ListenerManager.hpp:117-121 | registering with two masks in turn is registering with their union |
| IndicationAlgebra.RegistrationOrderIsIrrelevant | common/ListenerManager.hpp:117-121 | the order of two registrations does not matter |
| IndicationAlgebra.CallsAreIdempotent | common/ListenerManager.hpp:110-148 | repeating a call changes nothing |
| IndicationAlgebra.DifferentListenersCommute | common/ListenerManager.hpp:110-148 | calls for different listeners commute |
| IndicationAlgebra.DeregisterUndoesRegister | common/ListenerManager.hpp:110-148 | deregistering the mask just registered restores bits that did not hold the listener |
| Cv2xRadioTypes.Cv2xStatusEx.constructor | cv2x/Cv2xRadioTypes.hpp:172-202 | a new status is unknown in both directions, with no pools |
| Cv2xRadioHelper.ConvertNasV2xStatusMsg | cv2x/Cv2xRadioHelper.hpp:72-148 | the status becomes the merge, and the flag is true if and only if the status is not what it was |
| Cv2xRadioHelper.MergeRxPools | cv2x/Cv2xRadioHelper.hpp:95-119 | the receive loop merges every row, with an exact flag |
| Cv2xRadioHelper.MergeTxPools | cv2x/Cv2xRadioHelper.hpp:121-145 | the transmit loop merges every row, with an exact flag |
| Cv2xRadioHelper.MergedRowByRow | cv2x/Cv2xRadioHelper.hpp:97-117 | merging one more row is one pass of the loop and undoes no change |
| Cv2xRadioHelper.BeforeWrapping | cv2x/Cv2xRadioHelper.hpp:96-96 | n passes have merged the first n rows while the counter has not wrapped |
| Cv2xRadioHelper.AfterWrapping | cv2x/Cv2xRadioHelper.hpp:96-96 | after wrapping, passes change nothing and never end |
| Cv2xRadioHelper.PoolLoopExitsIffLengthFits | cv2x/Cv2xRadioHelper.hpp:96-96 | a pool loop ends if and only if the length is at most 255, then after that many passes with the merge |
| Cv2xStatusMerge.OverallFieldByField | cv2x/Cv2xRadioHelper.hpp:77-93 | valid overall statuses replace the stored ones; no other field outside the pools changes |
| Cv2xStatusMerge.PoolsFieldByField | cv2x/Cv2xRadioHelper.hpp:95-145 | every announced row reaches its pool; every field of every pool, and their number, after one message |
| Cv2xStatusMerge.WellFormedFieldByField | cv2x/Cv2xRadioHelper.hpp:95-122 | the messages that can be merged are those whose valid reports fit their array and the counter |
| Cv2xStatusMerge.OtherDirectionNeverUndoes | cv2x/Cv2xRadioHelper.hpp:95-145 | what one direction changed the other can not restore |
| Cv2xStatusMerge.DirectionsAreIsolated | cv2x/Cv2xRadioHelper.hpp:106-116 | a loop leaves the other direction, ids and channel data of existing pools alone |
| Cv2xStatusMerge.PoolLoopsCommute | cv2x/Cv2xRadioHelper.hpp:95-145 | the two loops commute in status and in combined flag |
| Cv2xStatusMerge.MergeIsIdempotent | cv2x/Cv2xRadioHelper.hpp:72-148 | merging the same message again changes nothing |
| Cv2xStatusMerge.MergedPool | cv2x/Cv2xRadioHelper.hpp:95-145 | what one message makes of one direction of one pool |
| Cv2xStatusMerge.LastReportIsLast | cv2x/Cv2xRadioHelper.hpp:95-145 | the last report is the one that no later message supersedes |
| Cv2xStatusMerge.LastOverallIsLast | cv2x/Cv2xRadioHelper.hpp:77-93 | the same for the overall status |
| Cv2xStatusMerge.PoolExistsIffReached | cv2x/Cv2xRadioHelper.hpp:97-104 | after a history a pool exists if and only if it did before or some message reached it |
| Cv2xStatusMerge.LastWriterWins | cv2x/Cv2xRadioHelper.hpp:95-145 | after any history each pool and direction has the value of the last message that reached it, else the initial or the unknown value |
| Cv2xStatusMerge.OverallLastWriterWins | cv2x/Cv2xRadioHelper.hpp:77-93 | the overall status follows the last valid message; all other fields stay |
| Cv2xStatusMerge.HistoryKeepsIndexing | cv2x/Cv2xRadioHelper.hpp:97-104 | every history keeps poolId[i] = i and at most 255 pools |
| Cv2xRadioHelper.ForwardChanges | cv2x/Cv2xRadioHelper.hpp:75-147 | a caller that copies the status only when the returned flag is true has, after each message, what the history so far makes of the status |

## Left out

- Interface, enumeration and factory headers of the repository: they have no behaviour.
- `BaseStateMachine`, `TftBuilder`, `Cv2xRxMetaDataHelper`, `TaskQueue`, `TaskDispatcher`, `CommandCallbackManager`: their bodies are not part of this model.
- `priorityListToBitset` and the other conversions of `Cv2xRadioHelper`: the ones they call have no visible body.
- Logging, clocks, and exceptions thrown by `get`.
- The blocking of `std::async` futures when the members of the queue are destroyed, and weak memory effects of the unprotected `shuttingDown_`.
- The object `AsyncTaskQueue` runs one thread at a time; what concurrent threads do to it is the state machine, which has the purge loop, the worker loop and the destructor as steps on values.
- An invalid future inside the queue is in the object but not in the protocol, because `add` needs a valid one.
- The balancing of `std::set`: the shape of a tree is any shape of its stored sequence, chosen anew for each call. How little a subtree that an insertion replaces can hold in a balanced tree is not used.
- The node count and the cached ends that `std::set` keeps: they are wrong after an insertion has replaced a subtree, and runs in which that can happen are left out.
- A vector or map of weak pointers is a value that the methods reassign; control blocks, reference counts and the caller's aliasing of its vector are not modelled.

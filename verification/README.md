# Verification of `ref_count`

`ref_count` is a reference counter whose references are standard or exclusive. Its state is one 32-bit
word and a bounded queue of waiting futures; the queue is a lock-free ring buffer. This project models
both, and proves what they promise for every run, every interleaving and every input.

## The array queue

* `Bits`, `Stamps`: the words of the queue (index and lap in one machine word, masks, wrapping laps) and
  the *tickets* they stand for. Ticket `n` is the n-th element ever pushed.
* `BoundedFifo`: what the queue is for. `IsFifo` says which answers are those of a bounded FIFO, by the order
  of coming and going alone; `Apply` answers one operation on a sequence, and `ApplyAll` gives exactly those
  answers; `Allowed`, `Next` and `History` are an atomic queue shared by callers; `Linearization` reads the sequential history off the
  events of a concurrent one.
* `TicketQueue`: `push`, `force_push` and `pop` as a step machine. Any number of threads, each with a
  program counter and possibly stale locals; every load, compare-exchange, value access and stamp store
  is a step of its own; a weak compare-exchange may fail spuriously.
* `TicketInvariant`: what every step keeps, by rely and guarantee: what a thread knows (`Local`), what all
  agree on (`Agreed`), what the others may rely on (`Rely`).
* `Linearizability`: the machine is an atomic bounded FIFO. `push` takes effect at its compare-exchange of
  the tail, `pop` at its compare-exchange of the head, `force_push` on a full queue at its
  compare-exchange of the head, a refusal at the load that shows the queue full or empty.
* `WordQueue`: the same machine over the machine words of the code. Encoding tickets as words commutes with
  every step as long as the stepping thread's word is less than a period of laps old.
* `OldWords`: what an older word does. For every capacity and word width there is a run whose events are no
  history of the bounded FIFO (`OldWordsBreak`).
* `QueueSafety`, `QueueObservers`, `QueueProgress`: exclusion and value transfer, `len`/`is_empty`/`is_full`
  among concurrent steps, and termination of a thread that runs alone.
* `ArrayQueue`: the queue as one owner uses it, an object with an array updated in place, with its retry
  loops, `Drop` and `IntoIter`, proved against `Apply`.

## The reference count and its futures

* `RefWord`: the word and the macros on it.
* `RefProtocol`, `RefSafety`: acquiring, dropping, blocking and unblocking as a step machine over the word
  for any number of agents, with the retry sequences of the macros. Counting and exclusion hold in every
  state of a run exactly when every step of it is safe (`RunExact`).
* `RefOutcomes`: where every acquisition and every poll ends, over every run, and what an agent gets that is
  left alone.
* `Waiters`: registration in the waiter queue and wake-ups. A poll is one step; an unblock is a store and
  then one pop and wake per step.
* `SplitPolls`: the same with polls and wakes as the code runs them: the check, the attempt, the load of the
  flag, the push, the store of the flag, and the pop, the clearing and the wake are steps of their own. What
  `Waiters` keeps is kept by a run exactly when all its steps are safe (`RunExact`).
* `RefCount`: the counter, its futures and its waiter queue as objects updated in place, each method proved
  against the step functions of `Waiters`. It uses the `ArrayQueue` object.

## Where the code departs from its documentation

* `unblock_refs` stores 0 into the word (src/lib.rs:444), which also erases live standard references.
  `try_get_exclusive_ref` does this when it gives up with references still active (src/lib.rs:544-545).
  After that an exclusive reference can exist beside a standard one, and dropping the standard one wraps
  the count. The machine does what the code does; `GivingUpErasesRefs` is such a run, and `UnblockExact`,
  `StepExact` and `RunExact` say exactly which steps and runs are right: an unblock is right exactly when
  the standard count is zero at that moment. Every drop of an exclusive reference meets that condition.
* `len`, `is_empty` and `is_full` count tickets. While a `force_push` has displaced the oldest element and
  not yet stored the tail, its own element has no ticket: about a queue of capacity one that is full at
  every instant, `len` can answer 0, `is_empty` `true` and `is_full` `false` (`WrongDuringOverwrite`). The
  tickets are the elements exactly when no thread is in that window of `force_push` (`CountAndContents`),
  and `InstantAnswers` says for each of the three exactly when its answer is true. A caller who sees to it
  that nobody runs `force_push` gets answers about the elements (`WithoutForcePush`).
* A poll is not atomic in the code. An unblock that runs whole between the blocked check and the push of
  the waiter leaves the future in the queue with nobody to wake it (`StrandedByUnblock`), and a wake
  between the push and the store of the flag leaves the flag stale, so that the future is never queued
  again (`LostByWake`, `StaleForever`). Both are runs from a new counter, for every kind of future. A step
  keeps registration and wake-ups if and only if it is safe (`StepExact`, `RunExact`): a waiter is accepted
  while references are blocked or a drain is under way (or its future is due anyway), and the flag is set
  before the wake has cleared it. Unblocks that keep apart from registrations are enough (`ApartIsSafe`).

## Model

| member | source | states |
|---|---|---|
| Bits.CeilLog2 | src/array_queue.rs:222-223 | the exponent of `one_lap` is the least one whose power reaches `C + 1` |
| Bits.AndLowMask | src/array_queue.rs:242 | masking with `one_lap - 1` is the remainder modulo `one_lap` |
| Bits.AndHighMask | src/array_queue.rs:243 | masking with the complement clears exactly the index bits, for every word width |
| Stamps.WordFits | src/array_queue.rs:245-249 | neither `tail + 1`, `head + 1` nor the filled stamp overflows, for any ticket and after any number of laps |
| Stamps.WordParts | src/array_queue.rs:242-243 | the masks split the word of a ticket into the index of its slot and its lap |
| Stamps.WordAdvance | src/array_queue.rs:245-253 | the code's next word is the word of the next ticket, across the end of the buffer and across the wrap of the lap |
| Stamps.WordNextLap | src/array_queue.rs:282 | adding `one_lap`, wrapping, to the word or to the filled stamp of a ticket gives those of the ticket `C` later |
| Stamps.WordPrevLap | src/array_queue.rs:344-345 | subtracting `one_lap`, wrapping, goes back exactly `C` tickets |
| Stamps.WordEqual | src/array_queue.rs:261 | two tickets share a word if and only if they are a multiple of the period apart |
| Stamps.WordInjective | src/array_queue.rs:261 | within one period, equal words are equal tickets |
| Stamps.FilledIsNotFree | src/array_queue.rs:114-118 | a filled stamp never equals a free stamp of the same slot, whatever their laps |
| Stamps.OneLapBehind | src/array_queue.rs:510 | the test of `is_full` holds exactly for words `C` tickets apart |
| Stamps.QueueSizeExact | src/array_queue.rs:98-110 | `queue_size!` is the number of tickets between head and tail, in all four of its cases |
| BoundedFifo.ApplyIsFifo | src/array_queue.rs:311-447 | an operation lets its value in behind the contents and the oldest out in front of them, and stays within the capacity |
| BoundedFifo.ApplyAnswers | src/array_queue.rs:311-447 | an answer fits the order of coming and going, and a refused push its own value, if and only if it is the one of the model |
| BoundedFifo.FifoOrder | src/array_queue.rs:124-131 | for every history from any contents: what was there and what entered is what departed followed by what is left, within the capacity; and answers are those of a bounded FIFO if and only if they are the model's |
| BoundedFifo.HistoryUnique | src/array_queue.rs:124-131 | the events of a history of the atomic queue determine its contents and the standing of every caller |
| BoundedFifo.DecidedInOrder | src/array_queue.rs:124-131 | what the callers invoked, in the order of the decisions and read off the events alone, is one sequential history: it ends in the contents, and every caller that is decided has the answer of its place |
| BoundedFifo.ReturnsMatch | src/array_queue.rs:124-131 | every return has the answer that a bounded FIFO gives to what its caller invoked last, by what came and went before the one decision in between |
| BoundedFifo.RealTimeOrder | src/array_queue.rs:124-131 | an operation that returns before another is invoked is before it in the sequential history |
| TicketInvariant.TailCasFresh | src/array_queue.rs:258-269 | when the tail compare-exchange finds its word, the slot is free, empty and unclaimed, the queue is not full and no overwrite is pending |
| TicketInvariant.HeadCasFresh | src/array_queue.rs:397-418 | when the head compare-exchange of `pop` finds its word, the slot holds the element of that ticket and is unclaimed |
| TicketInvariant.ForceCasFresh | src/array_queue.rs:343-352 | when `force_push` wins the head from possibly stale reads, the real tail is the tail it read, the queue is full, and the slot holds the oldest element |
| TicketInvariant.ActAgreed | src/array_queue.rs:233-447 | every step of any thread keeps what all threads agree on: window bounds, settled slots, stamps in range |
| TicketInvariant.ActRely | src/array_queue.rs:233-447 | every step of one thread leaves the slots claimed by another, moves head and tail by at most one ticket, and only lets stamps grow |
| TicketInvariant.LocalStable | src/array_queue.rs:233-447 | what a thread knows, stale observations included, survives the steps of the others |
| TicketInvariant.InvPerform | src/array_queue.rs:233-447 | every step of every thread keeps the whole invariant |
| TicketInvariant.InvRun | src/array_queue.rs:233-447 | the invariant holds in every state of every run |
| Linearizability.RefusedWhenFull | src/array_queue.rs:312-322 | `push` is refused only if the queue is full at the instant it loads the head |
| Linearizability.NothingWhenEmpty | src/array_queue.rs:430-437 | `pop` finds nothing only if the queue is empty, with no overwrite pending, at the instant it loads the tail |
| Linearizability.EffectIsApply | src/array_queue.rs:263-276 | the step at which an operation takes effect changes the contents as `Apply` says and fixes the answer `Apply` gives |
| Linearizability.OthersUnaffected | src/array_queue.rs:233-447 | no step changes the decided answer of another caller |
| Linearizability.StepRefines | src/array_queue.rs:233-447 | every step is an allowed step of the atomic queue; the value read out of a slot is the answer decided before |
| Linearizability.Linearizable | src/array_queue.rs:233-447 | every run of any number of threads is a history of the atomic bounded FIFO, each operation decided once between invocation and return |
| Linearizability.ConcurrentFifo | src/array_queue.rs:124-131 | over every interleaved run, of the operations that the threads invoked, in the order in which they take effect: the values let in are the values let out followed by the contents, and the answers are those of a bounded FIFO |
| Linearizability.ConcurrentAnswers | src/array_queue.rs:233-447 | what a thread returns at any step of any run is the answer of a bounded FIFO to its operation, in the place of the step at which it took effect; a refused push returns its own value |
| QueueSafety.SlotExclusion | src/array_queue.rs:269-276 | two threads between claim and stamp store never work on the same slot |
| QueueSafety.TakenIsPushed | src/array_queue.rs:357-362 | a popper or overwriter of a ticket takes exactly the initialised value that was pushed with it, whatever ran in between |
| QueueSafety.PushRecords | src/array_queue.rs:263-272 | the push that wins the tail is the one whose value the ticket carries |
| QueueSafety.PushWritesEmptySlot | src/array_queue.rs:271-273 | the slot a push writes holds no value, so none is overwritten and lost |
| QueueSafety.CasMeansCurrent | src/array_queue.rs:258-269 | a stamp loaded before a compare-exchange that finds its word is still in the slot, however many steps came between |
| QueueSafety.TailLocked | src/array_queue.rs:348-354 | from the head compare-exchange of `force_push` to its plain tail store no other thread moves the tail, and the store moves it by exactly one ticket |
| QueueObservers.PendingIsOverwrite | src/array_queue.rs:348-354 | an overwrite is pending exactly when some thread stands between the head compare-exchange and the tail store of `force_push` |
| QueueObservers.CountAndContents | src/array_queue.rs:513-515 | the tickets count the elements exactly when no thread stands there, and are one short otherwise |
| QueueObservers.LenExact | src/array_queue.rs:529-543 | `len` returns the number of tickets at its load of the head, and of elements exactly when no overwrite is pending then |
| QueueObservers.IsEmptyExact | src/array_queue.rs:477-487 | `true`: no tickets at the second load, and no elements exactly when no overwrite is pending then; `false`: at some instant of the call there was an element |
| QueueObservers.IsFullExact | src/array_queue.rs:502-511 | `true`: `C` elements at the second load; `false`: at some instant of the call there were fewer tickets, and fewer elements unless an overwrite was pending |
| QueueObservers.InstantAnswers | src/array_queue.rs:477-543 | for each observer, exactly when its answer at an instant is true of the elements |
| QueueObservers.WithoutForcePush | src/array_queue.rs:477-543 | as long as nobody runs `force_push`, tickets and elements are the same at every instant, so all answers are about the elements |
| QueueObservers.WrongDuringOverwrite | src/array_queue.rs:343-354 | a run after which all three observers are wrong about a full queue |
| QueueProgress.SoloProgress | src/array_queue.rs:240-292 | from any reachable state with nobody else between claim and stamp store, a thread running alone returns within two loop iterations and eight steps |
| WordQueue.PushComparisons | src/array_queue.rs:261-282 | the two stamp tests of `push_or_else` on wrapped words say exactly whether the slot is free for the ticket or filled one lap before |
| WordQueue.PopComparisons | src/array_queue.rs:400-430 | the two stamp tests of `pop` on wrapped words say exactly whether the slot is filled for the ticket or free for it |
| WordQueue.EncodedIndex | src/array_queue.rs:256-257 | every unchecked slot access is in bounds and reaches the slot of its ticket |
| WordQueue.ActSimulates | src/array_queue.rs:233-447 | one step over machine words is the encoding of the step over tickets, for every step of every operation |
| WordQueue.RunSimulates | src/array_queue.rs:203-447 | a run over machine words from `new` is the encoding of the run over tickets, event by event |
| WordQueue.WordsLinearizable | src/array_queue.rs:203-447 | every run over machine words in which threads act on recent words is a history of the atomic bounded FIFO |
| WordQueue.WordAnswers | src/array_queue.rs:203-447 | in such a run every answer is that of a bounded FIFO in its place, and a refused push returns its own value |
| WordQueue.ShortRunsAreRecent | src/array_queue.rs:245-253 | runs shorter than a period of pushes satisfy the recency condition |
| OldWords.OldWordClaims | src/array_queue.rs:263-269 | a tail word exactly one period old passes the compare-exchange that should fail |
| OldWords.OldWordOverwrites | src/array_queue.rs:263-276 | in a full queue, the value write that follows replaces the oldest element, which nobody has read |
| OldWords.OldWordsBreak | src/array_queue.rs:203-447 | for every capacity and word width, a run in which a thread sleeps through a period and whose events are no history of the bounded FIFO |
| ArrayQueue.QuiescentRing | src/array_queue.rs:546-556 | when no thread is between a claim and its stamp store, the ring holds exactly the linearized contents, ready for one owner |
| ArrayQueue.TailTests | src/array_queue.rs:261-282 | one owner's `push_or_else` sees a free slot exactly when the queue is not full, and the other test exactly when it is |
| ArrayQueue.HeadTests | src/array_queue.rs:400-437 | one owner's `pop` sees a filled slot exactly when the queue is not empty |
| ArrayQueue.ReplaceShifts | src/array_queue.rs:343-362 | overwriting the head slot of a full buffer removes the oldest element and appends the new one, with all stamps right |
| ArrayQueue.ArrayQueue.constructor | src/array_queue.rs:204-231 | a new queue is valid and empty |
| ArrayQueue.ArrayQueue.PushOrElse | src/array_queue.rs:233-293 | appends when there is room; otherwise hands the value back with the contents unchanged, or displaces the oldest, by the closure; however often the compare-exchange fails spuriously |
| ArrayQueue.ArrayQueue.Push | src/array_queue.rs:311-323 | appends exactly when there is room, and otherwise returns the pushed value and changes nothing |
| ArrayQueue.ArrayQueue.ForcePush | src/array_queue.rs:342-368 | appends, and returns the oldest element when the queue is full |
| ArrayQueue.ArrayQueue.Pop | src/array_queue.rs:385-447 | removes and returns the oldest element, or nothing when the queue is empty |
| ArrayQueue.ArrayQueue.IsEmpty | src/array_queue.rs:477-487 | exactly whether there are no elements |
| ArrayQueue.ArrayQueue.IsFull | src/array_queue.rs:502-511 | exactly whether there are as many elements as the capacity |
| ArrayQueue.ArrayQueue.Len | src/array_queue.rs:529-543 | the number of elements |
| ArrayQueue.ArrayQueue.Drop | src/array_queue.rs:546-575 | drops the contents, oldest first, each initialised value exactly once, across the end of the buffer |
| ArrayQueue.IntoIter.Next | src/array_queue.rs:600-629 | yields the oldest element and leaves the rest in order |
| ArrayQueue.IntoIter.TakeThenDrop | src/array_queue.rs:593-629 | what any prefix of the iteration yields, followed by what is dropped, is the original contents |
| ArrayQueue.RunHistory | src/array_queue.rs:203-447 | any history of one owner answers like a bounded FIFO and conserves the elements, for every capacity and word width and after any number of laps |
| RefWord.MasksAreBitOps | src/macros.rs:152-166 | the masks and shifts of the macros, bit by bit, take the word apart into count and block bit and set the block bit |
| RefWord.SumsWrap | src/macros.rs:129-134 | the increments and decrements of the word wrap as on a 32-bit word |
| RefSafety.CountsExact | src/lib.rs:147-264 | the standard count is the number of live references, the block bit whether somebody owns the block, and `ref_count` counts both |
| RefSafety.ExclusiveIsAlone | src/lib.rs:489-505 | while an exclusive reference lives there is no standard reference and no other owner of the block, and the word is 1 |
| RefSafety.RefTaken | src/lib.rs:677-690 | taking a reference from an unblocked word keeps count and exclusion exactly when the sum does not wrap |
| RefSafety.BlockTaken | src/lib.rs:345-356 | the block bit is only ever taken when nobody holds it |
| RefSafety.UnblockExact | src/lib.rs:443-444 | the store of an unblock is right exactly when no standard reference is live, and always right in `ExclusiveRef::drop` |
| RefSafety.DropExact | src/lib.rs:849-851 | dropping a reference takes exactly one reference off the word and never wraps |
| RefSafety.StepExact | src/lib.rs:345-851 | a step keeps exact counting and mutual exclusion if and only if it is safe |
| RefSafety.RunExact | src/lib.rs:345-908 | all states of a run keep them if and only if all its steps are safe |
| RefSafety.BlockedSegment | src/lib.rs:358-362 | while the block bit stays set, its owner stays, no new reference appears and the count falls by exactly the references dropped |
| RefSafety.AdmittedWhenDrained | src/futures.rs:168-175 | an owner waiting for the count gets its exclusive reference exactly when as many holders have left as there were; until then it keeps the bit, and gives up only as a try operation at its fifth count |
| RefSafety.OnlyUnblockClears | src/lib.rs:403-406 | a step leaves the block bit set if and only if it is not an unblock |
| RefSafety.FewRefsNeverWrap | src/macros.rs:129-149 | with fewer than 2^31 - 1 references at every instant and safe unblocks, no acquisition, however stale, computes a wrapped count |
| RefSafety.TryIsWaitFree | src/macros.rs:143-150 | every own step of a try operation brings it closer to its end, whatever the others do to the word: at most 5 steps for a reference or the block, 11 for an exclusive reference |
| RefSafety.TryEnds | src/lib.rs:535-548 | in any interleaving, an agent that is still trying has taken fewer steps than that bound |
| RefSafety.GivingUpErasesRefs | src/lib.rs:535-548 | a run in which giving up erases a live reference, an exclusive reference then lives beside it, and its drop wraps the count |
| RefOutcomes.GetterOutcomes | src/lib.rs:677-787 | in every interleaving, an acquisition of a reference goes on until it has one; only `try_get_ref`, `get_ref` and a poll give up, after exactly four failed compare-exchanges, with nothing or a pending future |
| RefOutcomes.BlockOutcomes | src/lib.rs:345-401 | the same for the block bit, taken by the step that sets it; a pending future left by a failure does not own it |
| RefOutcomes.CountOutcomes | src/lib.rs:489-615 | an agent that took the bit for an exclusive reference gets it when a count finds no reference: `blocking_get_exclusive_ref` counts until then, `try_get_exclusive_ref` five times, and the others leave a future that owns the bit |
| RefOutcomes.OwnershipFollowsBit | src/futures.rs:161-166 | an agent owns the block from exactly the step that sets the bit to exactly its unblock, so a pending future owns it if and only if its operation set it |
| RefOutcomes.PollOutcomes | src/futures.rs:78-176 | every poll takes at most seven steps of its own, whatever the others do, and leaves the future ready or pending |
| RefOutcomes.AloneGetsRef | src/futures.rs:78-92 | left alone on an unblocked word, every getter and every polled `FutureRef` gets its reference within five steps, whatever stale word it holds |
| RefOutcomes.StartGetsRef | src/lib.rs:677-787 | the same from the start of each getter, within two steps |
| RefOutcomes.AloneGetsBlock | src/futures.rs:123-166 | left alone on an unblocked word, every blocker and polled future gets the bit, and goes on to count exactly if it is after an exclusive reference |
| RefOutcomes.StartGetsBlock | src/lib.rs:345-615 | the same from the start of each operation; without references, the exclusive reference with one more step |
| RefOutcomes.OwnerGetsExclusive | src/futures.rs:168-169 | an owner left alone without references has its exclusive reference after one count, or one poll |
| RefOutcomes.WaitersFollow | src/lib.rs:443-452 | whatever an agent does to the word is a step of the waiter machine: an unblock with its drain, or another operation that leaves a block in place |
| Waiters.TryRegisterKeeps | src/futures.rs:39-48 | registering, also in a full queue, keeps flag and queue in agreement and leaves the future queued or woken |
| Waiters.PollKeeps | src/futures.rs:78-176 | a poll of any kind of future, spurious failures included, keeps the registration, leaves the future covered and touches no other |
| Waiters.PollGains | src/futures.rs:78-176 | when the executor's poll is ready and what it takes: a reference, the block bit, or the bit and an empty count |
| Waiters.PollLeaves | src/futures.rs:78-176 | what it leaves: a future that is not ready is queued under a block of somebody else, and otherwise asks to be polled again; nobody else is touched |
| Waiters.CreateLeaves | src/lib.rs:489-505 | a new future is due for its first poll, not registered, and owns the block exactly if it was handed over |
| Waiters.OwnersAwake | src/futures.rs:168-175 | in every reachable state a pending future that owns the block is due for another poll, which is ready exactly when no reference is left |
| Waiters.DrainKeeps | src/lib.rs:446-451 | popping and waking one waiter keeps registration and coverage; a drain only ends on an empty queue |
| Waiters.DrainInOrder | src/lib.rs:446-451 | waiters are woken in the order in which they registered: after `k` turns exactly the first `k` are woken and unregistered |
| Waiters.StepKeeps | src/futures.rs:39-176 | every step keeps: one waiter in the queue exactly for each registered future, and no pending future loses its wake-up |
| Waiters.RunKeeps | src/futures.rs:39-176 | the same in every state of every run, with any number of overlapping drains |
| Waiters.NobodyStranded | src/lib.rs:403-406 | when nobody blocks and no drain is under way, every pending future is due for another poll |
| Waiters.DrainWakesAll | src/lib.rs:446-451 | a drain that runs to its end wakes and unregisters exactly the waiting futures |
| Waiters.UnblockFreesAll | src/lib.rs:443-452 | an unblock that runs to its end leaves every pending future due for another poll, also among other drains |
| SplitPolls.Uninterrupted | src/futures.rs:78-176 | the atomic steps of a poll, with nothing in between, are the one step of `Waiters`, for every kind of future |
| SplitPolls.UninterruptedWake | src/waiter.rs:42-45 | so are the pop, the clearing of the flag and the wake of a drain |
| SplitPolls.AtRest | src/futures.rs:39-48 | with no poll and no wake under way, the invariant below is that of `Waiters` |
| SplitPolls.PushExact | src/futures.rs:41-42 | the push of a waiter leaves its future covered if and only if it is refused, references are blocked, a drain is under way, or the future is due anyway |
| SplitPolls.RegisteringExact | src/futures.rs:41-43 | the store of the flag is right if and only if the wake of that waiter has not cleared the flag yet |
| SplitPolls.StepExact | src/futures.rs:39-176 | a step of any interleaving keeps exact registration and every wake-up if and only if it is safe |
| SplitPolls.RunExact | src/futures.rs:39-176 | all states of a run keep them if and only if all its steps are safe |
| SplitPolls.NobodyStranded | src/lib.rs:403-406 | in a safe run, a pending future that nobody is about to wake is in the queue, under a block or with a drain under way |
| SplitPolls.ApartIsSafe | src/lib.rs:443-452 | runs whose unblocks store and pop outside registrations are safe, however else polls, drains and wakes overlap |
| SplitPolls.OwnersAlwaysCount | src/futures.rs:168-175 | in every run, safe or not, a pending future that owns the block is counting, asking to be polled again, or due: it never waits in the queue behind its own block |
| SplitPolls.OwnerGetsReference | src/futures.rs:168-175 | at rest it is due, and its next poll is ready exactly when the last reference has gone |
| SplitPolls.UnsafePushSticks | src/futures.rs:42-43 | an unsafe push leaves its future asleep with no drain under way when the poll ends |
| SplitPolls.StuckUntilUnblock | src/lib.rs:443-452 | such a future is not woken by anything but a further unblock |
| SplitPolls.UnsafeFlagIsStale | src/futures.rs:43 | an unsafe store of the flag leaves it set with no waiter out |
| SplitPolls.StaleForever | src/futures.rs:41 | and it stays so in every run: the future is never queued again |
| SplitPolls.LostForever | src/futures.rs:41 | a future that sleeps outside the queue is never polled again, whatever is blocked and unblocked later |
| SplitPolls.StrandedByUnblock | src/futures.rs:79-80 | a run from a new counter, for every kind of future, in which an unblock between the check and the push strands it |
| SplitPolls.LostByWake | src/futures.rs:42-43 | a run from a new counter, for every kind of future, in which a wake between the push and the store of the flag loses it |
| RefCount.FutureObject.Wake | src/waiter.rs:42-45 | clears the flag and wakes |
| RefCount.RefCount.TryGetRef | src/lib.rs:726-735 | four attempts; succeeds exactly when the word is not blocked and not all attempts fail spuriously, and then counts one reference |
| RefCount.RefCount.TryBlockRefs | src/lib.rs:345-356 | four attempts; succeeds under the same condition, and then sets only the block bit |
| RefCount.RefCount.GetRef | src/lib.rs:677-690 | a reference exactly when unblocked and not all four attempts fail; otherwise a new future, due for its first poll, and nothing else changed |
| RefCount.RefCount.BlockRefs | src/lib.rs:395-401 | the block bit under the same condition; otherwise a new future, due for its first poll, and nothing else changed |
| RefCount.RefCount.GetExclusiveRef | src/lib.rs:489-505 | ready exactly when the word goes from 0 to 1; otherwise a new future that owns the block exactly when this call set the bit |
| RefCount.RefCount.TryGetExclusiveRef | src/lib.rs:535-548 | the three outcomes; giving up with references live leaves the word at zero |
| RefCount.RefCount.UnblockRefs | src/lib.rs:443-452 | stores zero, empties the queue and wakes exactly the waiters; every pending future is then due for another poll |
| RefCount.RefCount.DropExclusive | src/lib.rs:898-908 | clears exactly the block bit, and wakes every waiter |
| RefCount.RefCount.RegisterFuture | src/futures.rs:39-48 | the queue, the flag and the wake-up change as `TryRegister` says |
| RefCount.RefCount.PollRefFuture | src/futures.rs:78-92 | the poll in place is the step of the machine |
| RefCount.RefCount.PollBlockedFuture | src/futures.rs:123-137 | the poll in place is the step of the machine |
| RefCount.RefCount.PollExclusiveFuture | src/futures.rs:160-176 | the poll in place is the step of the machine, the hand-over of the block included |
| RefCount.RefCount.Poll | src/futures.rs:78-176 | for each kind of future, when one poll by the executor is ready, what it does to the word, and where the future waits otherwise; registration stays exact and no wake-up is lost |

## Left out

- Weak memory orderings, fences and cache-line padding (src/pad.rs): all steps are sequentially consistent.
- Backoff, spin hints and yields (src/backoff.rs): they only affect timing.
- `MaybeUninit`, raw pointers and moved, cancelled or dropped pending futures: slots hold optional values, and futures keep their identity for the whole run.
- Executors, changing wakers between polls and the order in which woken futures win: a woken future is due for another poll, and nothing more.
- WordQueue.WordsLinearizable: assumes that no thread acts on a word a whole period of laps old; `OldWordsBreak` shows that it fails without, and `ShortRunsAreRecent` when it comes for free. The same holds of the step lemmas `PushComparisons`, `PopComparisons`, `ActSimulates` and `RunSimulates`.
- QueueObservers.LenExact: assumes that the tail does not move a whole period between the two tail loads.
- QueueObservers.IsEmptyExact: `true` is about the second load only if the tail has not moved a whole period in between; the same holds of `IsFullExact` and the head.
- Waiters.RunKeeps: each poll and each wake is one step, because the statement is false below that granularity; `SplitPolls` has the exact statement there.
- Waiters.PollKeeps: the attempts of an acquisition inside one poll fail spuriously together or not, also in `SplitPolls`; their interleaving with other agents is in `RefProtocol`.
- RefCount.RefCount.Poll: one thread at a time; the interleavings of the word are in `RefProtocol`, those of polls and drains in `Waiters` and `SplitPolls`.
- ArrayQueue.ArrayQueue.Len: the loop that reloads the tail until it agrees is gone, because with one owner it agrees at once.
- `blocking_get_ref` and `blocking_get_exclusive_ref` are in `RefProtocol` only: alone they would spin forever on a blocked word.
- `capacity`, the `needs_drop` test of `Drop`, `Default`, `Debug`, `Display`, `State`, feature flags, loom shims, benches and the README lock: plumbing or easy members.

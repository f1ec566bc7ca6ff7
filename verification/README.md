# Verified models of libeva, its concurrent containers and the mini memcached

This project models the hard parts of the repository in Dafny and proves what they are for. The meaning of the code is
that of its default release build (`CMakeLists.txt`), in which assertions have no effect.

- **Lazy sorted list** (`LazyList*.dfy`): any number of threads, one access to shared memory a step, spin locks, marks,
  nodes retained. The abstract state is a map from keys to entries. Lock-free reads are linearizable by hindsight,
  updates take effect at exactly one step, locks cannot deadlock, an undisturbed call returns. `contains` compares the
  head's own default value, so it answers like `get` above that value only; at or below it the answer does not depend on
  the list, and the contract says which answer it is.
- **Reactor** (`Reactor.dfy`): producers and the loop as interleaved steps around the mutex-protected vector, the flag
  that a reset can overwrite, and the eventfd that repairs it. Functors queued by the reactor's thread ahead of
  `dispatch` are stranded until some event comes; a lemma gives the run, and the guarantee is proved under exactly the
  condition that excludes it, with the weaker form for all runs. What is queued is tied to the posts among the events, and
  the loop's own steps are proved to bring it to run.
- **Time wheel** (`TimeWheel.dfy`): the ring of linked lists, changed in place, against a plain record of what was
  promised. A timer handed over outside `tock` less than a tick ahead lands in the current slot and runs a whole turn
  late; being on time is proved equivalent to being asked for at least one tick ahead.
- **Two-lock queue** (`TwoLockQueue.dfy`, `TwoLockQueueSolo.dfy`) and **work-stealing pool** (`StealingQueue.dfy`,
  `ThreadPool.dfy`): linearizable first-in first-out order, no touch of a freed node and no leak of one, conservation of
  tasks, a scan that inspects every queue once, and which task a worker takes next.
- **Byte buffer and send path** (`Bytes.dfy`, `Buffer.dfy`, `TcpConnection.dfy`): an array with two indices that behaves
  as a plain byte sequence; outgoing bytes neither lost, repeated nor reordered under partial writes.
- **Store and line protocol** (`Entry.dfy`, `ByteOrder.dfy`, `SortedList.dfy`, `HashSet.dfy`, `MiniMemcached.dfy`,
  `Tokenizer.dfy`, `LineProtocol.dfy`, `Chunking.dfy`, `Conversation.dfy`, with `Footprints.dfy` and `Sharding.dfy`
  below them): entries, linked buckets, two levels of hashing and the request loop as classes; the protocol as a function
  on plain values; the loop refines the function. The greatest key is bound from the start, to an empty value. A `get`
  whose key is longer than the block of the entry at hand, and any key beyond the greatest, has no defined effect in the
  original; the model stops there, and the protocol's function says exactly when.
- **Smaller cores**: the epoll registration (`Demultiplexer.dfy`) and the integer printer (`LogStream.dfy`), with
  `Truncation.dfy` for C++ division.

Concurrent code is modelled as a deterministic function of a state and an event, and theorems are about the states of
every sequence of events. Code that runs on one thread is modelled as classes and loops and proved against functions.
Some predicates are closed (`forall k | Gate(k) :: ...`): their content is available only where the gate is named, which
keeps proofs that do not need it small.

The clock, the results of `write` and `readv`, what callbacks do, and the schedule of threads are inputs: any values that
their contracts allow.

## Model

| member | source | states |
|---|---|---|
| LazyListTheorems.RunHasInv | ds/LazyList/LazyList.h:127-208 | the full invariant of list, locks, walks and history holds after every sequence of calls and steps of any number of threads |
| LazyListSteps.EventKeepsInv | ds/LazyList/LazyList.h:127-208 | every single access of every operation keeps that invariant |
| LazyListTheorems.ChainShape | ds/LazyList/LazyList.h:89-91 | in every reachable state the chain from the head rises strictly by key and ends at the tail, every node but one still being made is marked or on it, and a marked node still on it is locked with its predecessor by the thread removing it |
| LazyListTheorems.MarkedIsBeingUnlinked | ds/LazyList/LazyList.h:141-143 | a marked node that is still chained belongs to a removal that stands between its mark and its unlink |
| LazyListTheorems.RemoverHolds | ds/LazyList/LazyList.h:136-143 | the remover of such a node holds the lock of the node and of its predecessor |
| LazyListCalls.GetByHindsight | ds/LazyList/LazyList.h:196-208 | when `get` returns the empty value the key was unbound in some state within the call; when it returns an entry the map bound the key to that entry in some state within the call |
| LazyListCalls.ContainsByHindsight | ds/LazyList/LazyList.h:159-165 | above the default value `contains` tells the truth about some state within the call; at or below it the answer is fixed |
| LazyListCalls.AbsMeans | ds/LazyList/LazyList.h:58-69 | the abstract map binds exactly the keys of unmarked chained nodes, each to that node's entry |
| LazyListCalls.CommitEffect | ds/LazyList/LazyList.h:136-189 | the mark, the overwrite and the link each change the abstract map as the call promises |
| LazyListCalls.QuietEffect | ds/LazyList/LazyList.h:127-208 | every other step of every thread leaves the abstract map as it is |
| LazyListCalls.CommitsOnce | ds/LazyList/LazyList.h:136-189 | a successful update has exactly one such step between its call and its return, any other call none |
| LazyListCalls.MapChange | ds/LazyList/LazyList.h:127-193 | between two states of a run the map changes only by an update's own step, and then by that update's effect |
| LazyListCalls.UpdateTakesEffectOnce | ds/LazyList/LazyList.h:127-193 | a returned update took effect at exactly one step of its interval, or it is a `remove` that returned false and changed nothing |
| LazyListCalls.FalseWasAbsent | ds/LazyList/LazyList.h:138-140 | a `remove` that returns false compared, with both locks held and validated, in a state in which the key was unbound |
| LazyListCalls.NoWaitingCircle | utility/SpinLock.h:12-32 | no reachable state has a circle of threads each waiting for a lock the next one holds |
| LazyListCalls.SomeoneMoves | ds/LazyList/LazyList.h:129-138 | whenever a thread waits for a lock some thread that is not waiting can move |
| LazyListCalls.NoNullIsFollowed | ds/LazyList/LazyList.h:130-135 | for keys below the greatest no walk ever follows a null link |
| LazyListCalls.HeadStays | ds/LazyList/LazyList.h:63-69 | no update ever reaches the head's own entry |
| LazyListSolo.AloneItReturns | ds/LazyList/LazyList.h:127-208 | in every reachable state in which no lock is held, a call that is the only one to step from then on returns within a bound, with its effect done and exactly the answer the map gives |
| Reactor.EachOnceInOrder | libeva/Reactor/Reactor.cc:122-181 | in every reachable state the functors in lock order are those that ran, then the rest of the batch, then those pending |
| Reactor.PostedIsQueued | libeva/Reactor/Reactor.cc:122-126 | in every run the functors queued are those handed over by the accepted posts, read off the events, each once and in their order |
| Reactor.SwapRunsInItsIteration | libeva/Reactor/Reactor.cc:169-181 | everything pushed before a swap has run when the loop's iteration ends, and what running functors push waits for the next swap |
| Reactor.SwapRunsPosted | libeva/Reactor/Reactor.cc:169-180 | what has run when that iteration ends is exactly everything posted before the swap, in order |
| Reactor.NoStrandedFunctor | libeva/Reactor/Reactor.cc:65-81 | if the reactor's thread queues nothing ahead of `dispatch`, then whenever the loop is about to wait with functors pending the eventfd is readable or a producer has yet to write it |
| Reactor.NoForgottenFunctor | libeva/Reactor/Reactor.cc:65-81 | for every run, the same or the flag is set |
| Reactor.EarlyPostsStrand | libeva/Reactor/Reactor.cc:122-131 | functors queued ahead of `dispatch` do strand, if and only if there are any |
| Reactor.WakeupRunsAll | libeva/Reactor/Reactor.cc:141-148 | once a poll reports the eventfd, everything queued by then has run, in order, when the loop comes round |
| Reactor.PostedRuns | libeva/Reactor/Reactor.cc:122-148 | the functor of any accepted post has run, behind all those posted before it, when the loop comes round after a reported wakeup |
| Reactor.FlagRunsAll | libeva/Reactor/Reactor.cc:76-79 | a thread that sets the flag before the loop looks at it need not wait for the eventfd: all that was posted runs in this iteration |
| Reactor.EveryCallRuns | libeva/Reactor/Reactor.cc:122-131 | once an idle thread has called `queueInReactor`, a dispatching loop comes by its own steps to have run that functor, behind all those posted before |
| Reactor.AllComesToRun | libeva/Reactor/Reactor.cc:65-81 | under the condition of `NoStrandedFunctor`, whenever no other thread is inside a call a dispatching loop comes by its own steps to have run all that was ever posted |
| Reactor.ComesToRest | libeva/Reactor/Reactor.cc:65-81 | left alone, the loop comes back to its top with the eventfd read and the flag down |
| Reactor.StopWorks | libeva/Reactor/Reactor.cc:162-167 | a `stop` from any idle thread or from a callback makes a running loop end |
| TimeWheel.AimMeans | libeva/TimeWheel/TimeWheel.cc:178-195 | a time a turn or more ahead is refused; any other accepted time goes to the slot of the last tick not after it if and only if it is at least one tick ahead |
| TimeWheel.OneTickASlot | libeva/TimeWheel/TimeWheel.cc:184 | within one turn of the wheel a slot stands for one tick |
| TimeWheel.TimeWheel.File | libeva/TimeWheel/TimeWheel.cc:178-195 | filing a timer puts it in front of its slot's list, records its due tick, and leaves all else as it was |
| TimeWheel.TimeWheel.AddTimer | libeva/TimeWheel/TimeWheel.cc:129-137 | accepts exactly the times from now to less than one turn ahead (in a walk: from one tick ahead); the plan is on time if and only if it is one tick ahead |
| TimeWheel.TimeWheel.FireOne | libeva/TimeWheel/TimeWheel.cc:66-87 | the first due timer runs, then is freed, or pending again for exactly its interval after the time read when its callback has returned |
| TimeWheel.TimeWheel.Settle | libeva/TimeWheel/TimeWheel.cc:79-84 | a repeating timer is filed for exactly its interval after the clock's reading, any other is freed |
| TimeWheel.TimeWheel.Walk | libeva/TimeWheel/TimeWheel.cc:63-88 | a walk runs exactly the slot's list, front first, each once, whatever the callbacks add |
| TimeWheel.TimeWheel.Tick | libeva/TimeWheel/TimeWheel.cc:59-88 | one tick runs exactly the timers due at it |
| TimeWheel.TimeWheel.Tock | libeva/TimeWheel/TimeWheel.cc:49-95 | a catch-up of any number of ticks runs every timer that was due, at its tick, once; one-shot timers are freed, repeating ones pending again for their interval after a time within the catch-up; steady ones never twice; the start then lags the time read by less than a tick |
| TimeWheel.TimeWheel.Cancel | libeva/TimeWheel/TimeWheel.cc:145-158 | cancelling succeeds exactly for the timer at the front of its list, and removes that timer only |
| TimeWheel.TimeWheel.SlotHoldsOneTick | libeva/TimeWheel/TimeWheel.cc:59-90 | slot `s` holds exactly the pending timers whose due tick maps to it, all due at the same tick |
| TimeWheel.TimeWheel.PromisesKept | libeva/TimeWheel/TimeWheel.cc:49-195 | every firing promised for a tick that has passed has happened unless cancelled; nothing else happened; each was on time if and only if asked for one tick ahead |
| TimeWheel.TimeWheel.NoneReturns | libeva/TimeWheel/TimeWheel.cc:79-83 | a repeating timer of at least one tick is not due again within the `tock` that ran it |
| TimeWheel.Drive | libeva/TimeWheel/TimeWheel.cc:49-195 | any sequence of additions, cancellations and catch-ups keeps all promises, or stops at a timer outside the wheel's range |
| TwoLockQueue.RunHasInv | ds/FineGrainedQueue/FineGrainedQueue.h:65-106 | the invariant of nodes, locks and poppers holds in every state of every run of any number of threads |
| TwoLockQueue.FirstInFirstOut | ds/FineGrainedQueue/FineGrainedQueue.h:65-106 | popped values followed by those between head and tail are the pushed values in order |
| TwoLockQueue.PopTakesTheFirst | ds/FineGrainedQueue/FineGrainedQueue.h:93-106 | a successful pop returns the value that was first when it moved the head, and moves it exactly once |
| TwoLockQueue.PushAddsLast | ds/FineGrainedQueue/FineGrainedQueue.h:65-74 | a push adds its value last, at exactly one step of its interval |
| TwoLockQueue.HeadNodeIsFixed | ds/FineGrainedQueue/FineGrainedQueue.h:97-102 | once a popper has seen head and tail differ, the head's entry and link stay fixed while it holds the head lock |
| TwoLockQueue.FailedPopSawEmpty | ds/FineGrainedQueue/FineGrainedQueue.h:35-38 | a failing `tryPop` saw a truly empty queue at its reading of the tail |
| TwoLockQueue.NothingFreedIsTouched | ds/FineGrainedQueue/FineGrainedQueue.h:104-105 | no step reads or writes a node that has been freed |
| TwoLockQueue.NothingLeaks | ds/FineGrainedQueue/FineGrainedQueue.h:84-105 | when no pop is between moving the head and returning, the nodes freed are exactly those the head has passed |
| TwoLockQueueSolo.AloneItReturns | ds/FineGrainedQueue/FineGrainedQueue.h:65-106 | in every reachable state with both locks free, a call that is the only one to step from then on ends within twelve steps: a push has added its value last, a pop has the first value or found none |
| TwoLockQueueSolo.WokenReturns | ds/FineGrainedQueue/FineGrainedQueue.h:77-91 | a waiting pop that is woken with a value there and no lock held takes the first value |
| StealingQueue.StealingQueue.PushBack | ds/StealingQueue/StealingQueue.h:24-28 | adds at the back and changes nothing else |
| StealingQueue.StealingQueue.TryPopBack | ds/StealingQueue/StealingQueue.h:30-39 | takes the last element, fails if and only if there is none |
| StealingQueue.StealingQueue.TryStealFront | ds/StealingQueue/StealingQueue.h:41-50 | takes the first element, fails if and only if there is none |
| ThreadPool.TasksAreConserved | libeva/Thread/MyThreadPool.cc:18-49 | in every state of every run the tasks submitted are, with multiplicity, those executed, held by workers and queued |
| ThreadPool.HandedIsSubmitted | libeva/Thread/MyThreadPool.cc:72-78 | the tasks submitted are those handed over by the accepted calls of `run`, read off the events |
| ThreadPool.HandedStep | libeva/Thread/MyThreadPool.cc:72-78 | `run` puts its task last, into the calling worker's own queue or else into the shared one, and changes no other queue |
| ThreadPool.NextTask | libeva/Thread/MyThreadPool.cc:22-35 | undisturbed, a worker of a running pool executes the last task of its own queue, else the first shared one, else the first of the first queue in scan order that has one, and comes back with nothing done if and only if no task waits |
| ThreadPool.AllComesToRun | libeva/Thread/MyThreadPool.cc:18-49 | in every run that is not stopped, one worker left alone comes to have every task ever handed over executed, as often as it was handed over |
| ThreadPool.NoExitBeforeStop | libeva/Thread/MyThreadPool.cc:22 | the pool runs until it is stopped, and no worker leaves its routine before |
| ThreadPool.NoTaskRunsTwice | libeva/Thread/MyThreadPool.cc:18-36 | if no task was submitted twice none is executed twice |
| ThreadPool.ScanMeetsEachOnce | libeva/Thread/MyThreadPool.cc:41-43 | the scan's indices meet every queue at exactly one turn, the worker's own last |
| ThreadPool.FailedStealSawAllEmpty | libeva/Thread/MyThreadPool.cc:38-49 | a scan that fails under interference has inspected every queue and found it empty at that moment |
| ThreadPool.StealWork | libeva/Thread/MyThreadPool.cc:38-49 | without interference the scan takes the front of the first queue that has one and leaves all others, and fails only when all are empty |
| Bytes.BigEndianRoundTrip | libeva/Net/Buffer.h:199-298 | every signed number of 1, 2, 4 or 8 bytes is read back from its bytes in network order |
| Bytes.BigEndianByte | libeva/Net/Buffer.h:199-224 | the bytes are in network order: byte `i` of `k` counts for 256 to the power `k - 1 - i` |
| Buffer.Buffer.FindCRLF | libeva/Net/Buffer.h:57-62 | the first CR LF in the readable bytes, or none |
| Buffer.Buffer.FindEOL | libeva/Net/Buffer.h:73-77 | the first LF in the readable bytes, or none |
| Buffer.Buffer.Retrieve | libeva/Net/Buffer.h:90-101 | drops that many bytes from the front, or all of them |
| Buffer.Buffer.MakeSpace | libeva/Net/Buffer.h:365-384 | both branches keep the readable bytes and make room; the array grows if and only if the free bytes in front and behind do not suffice; moving down never starts at or below the cheap prepend |
| Buffer.Buffer.Append | libeva/Net/Buffer.h:157-162 | the readable bytes are followed by the new ones, whatever room there was |
| Buffer.Buffer.Prepend | libeva/Net/Buffer.h:329-335 | the new bytes stand in front of the readable ones |
| Buffer.Buffer.Unwrite | libeva/Net/Buffer.h:190-194 | drops that many bytes from the back |
| Buffer.Buffer.Shrink | libeva/Net/Buffer.h:337-344 | the readable bytes move to a new array with the reserve behind them |
| Buffer.Buffer.ReadFd | libeva/Net/Buffer.cc:10-37 | a scatter read appends exactly the bytes read, over both vectors, and a failed one nothing |
| Buffer.Buffer.PeekInt | libeva/Net/Buffer.h:265-298 | the number that the first bytes carry, whoever put them there |
| Buffer.Buffer.ReadInt | libeva/Net/Buffer.h:229-259 | reading a number takes off exactly its bytes |
| Buffer.Replay | libeva/Net/Buffer.h:90-384 | any sequence of operations on a buffer of any size has the effect of the same operations on a plain byte sequence |
| TcpConnection.TcpConnection.SendInReactor | libeva/Net/TcpConnection.cc:68-100 | bytes taken by the socket followed by those waiting grow by exactly the payload, for every outcome of the write but a broken peer; the socket is offered the payload if and only if nothing waits; write interest is on exactly while bytes wait |
| TcpConnection.TcpConnection.HandleWrite | libeva/Net/TcpConnection.cc:124-144 | moves exactly the bytes taken from the front of the buffer to the wire; a connection being closed is shut down if and only if this takes its last waiting bytes |
| TcpConnection.TcpConnection.SendBuffer | libeva/Net/TcpConnection.cc:26-46 | a buffer sent from the reactor's thread is emptied into the connection |
| TcpConnection.Converse | libeva/Net/TcpConnection.cc:68-144 | after any sends and partial writes the wire followed by the output buffer is the concatenation of all payloads |
| Entry.Entry.constructor | minimemcached/Entry.cc:9-17 | a new entry has its key, no value, and the hash of its key |
| Entry.Entry.Copy | minimemcached/Entry.cc:19-25 | a copy has the same key and value in a block of its own, and the hash of its key |
| Entry.Entry.HashStr | minimemcached/Entry.cc:44-52 | the loop computes the polynomial hash of signed characters in 64-bit arithmetic |
| Entry.HashIsPolynomial | minimemcached/Entry.cc:44-52 | that hash is the remainder of the polynomial in 131: wrapping at every step comes to wrapping at the end |
| Entry.Entry.Append | minimemcached/Entry.cc:27-32 | extends the value and leaves the key |
| Entry.Entry.ResetKey | minimemcached/Entry.cc:34-42 | a key that fits the block replaces the old one; the counted room stays the same in sum |
| Entry.Entry.ResetKeyFor | minimemcached/Entry.cc:55-69 | the key and room for the value, in a new block exactly when the counted room is too small |
| Entry.Entry.CopyToBuffer | minimemcached/Entry.h:67-72 | appends, byte for byte, the word VALUE and a space, the key, CR LF, the value, and leaves the entry as it is |
| ByteOrder.LessMeans | minimemcached/MiniMemcached.h:37-41 | the comparator's order is that of unsigned bytes: a proper prefix, or smaller at the first difference |
| ByteOrder.LessTrichotomy | ds/LazyList/LazyList.h:93-102 | values that are not less than each other are equal |
| SortedList.StopDecides | ds/LazyList/LazyList.h:172-180 | the place where a walk stops decides whether the key is in the list |
| SortedList.InsertMap | ds/LazyList/LazyList.h:184-186 | inserting where the walk stopped binds the key and nothing else |
| SortedList.DropMap | ds/LazyList/LazyList.h:142-143 | dropping a place keeps the order and unbinds that key and no other |
| SortedList.SortedList.Add | ds/LazyList/LazyList.h:169-193 | binds the key of the entry to its value, overwriting or linking a node in place, and keeps all else |
| SortedList.SortedList.Remove | ds/LazyList/LazyList.h:128-156 | unbinds the key and says whether it was bound |
| SortedList.SortedList.Get | ds/LazyList/LazyList.h:196-208 | an entry with the key and the value last bound to it, or null if and only if it is unbound |
| Sharding.AgreesAfter | minimemcached/MiniMemcached.cc:25-43 | binding a key in the part its hash picks is binding it in the whole map |
| HashSet.HashSet.Add | ds/HashSet/HashSet.h:65-73 | one bucket changes in place, and the set as one map gains exactly the binding |
| HashSet.HashSet.Get | ds/HashSet/HashSet.h:86-94 | what the one map binds the key to |
| MiniMemcached.MiniMemcached.constructor | minimemcached/MiniMemcached.cc:7-21 | the new store is the map that binds only the greatest key |
| MiniMemcached.MiniMemcached.Set | minimemcached/MiniMemcached.cc:25-33 | two levels of hashing over linked lists change as one map: the key is bound to the value, no other binding changes |
| MiniMemcached.MiniMemcached.Get | minimemcached/MiniMemcached.cc:35-43 | the value last set for the key, or null if and only if there is none |
| Tokenizer.TokensOfJoined | minimemcached/utility/Tokenizer.cc:10-36 | however many spaces stand between, before and after words, the tokens are the words |
| Tokenizer.TokensAreWords | minimemcached/utility/Tokenizer.cc:25-36 | tokens are not empty and have no spaces |
| Tokenizer.Tokenizer.HasMoreToken | minimemcached/utility/Tokenizer.cc:15-20 | says whether tokens are left and consumes none |
| Tokenizer.Tokenizer.NextToken | minimemcached/utility/Tokenizer.cc:25-36 | yields the next token, or nothing at the end |
| LineProtocol.FirstIs | libeva/Net/Buffer.h:57-77 | the line ends of the protocol are the ones the buffer's searches find |
| LineProtocol.SetThenGet | minimemcached/Conversation.cc:38-140 | a `set` with its value followed by a `get` sends, byte for byte, the acknowledgement, the key, the value and the end mark, and changes no other binding, whatever the store held |
| LineProtocol.GetReadsBack | minimemcached/Conversation.cc:38-58 | a client that splits the reply to a `get` at its first line end reads back exactly the key and the value bound to it, or that there is none, for every key a line can name |
| LineProtocol.AcceptsMeans | minimemcached/Conversation.cc:60-85 | a `set` with a number written in decimal is accepted if and only if the number is from 1 to 1024 |
| LineProtocol.AtoiReads | minimemcached/Conversation.cc:75-76 | a number written in decimal digits, behind blanks and with anything but a digit after it, is read as that number, and with a minus sign as its negative |
| LineProtocol.EchoReadsBack | minimemcached/Conversation.cc:27-34 | the echo of any words, split at its spaces, gives the words back |
| LineProtocol.StaysStuck | minimemcached/Conversation.cc:44 | once a key has not fitted, nothing further is claimed or done |
| Chunking.SplitClean | minimemcached/Conversation.cc:88-123 | in a stream without a lone LF before a CR LF, going on where the first part stopped handles the same requests |
| Chunking.ChunksDoNotMatter | minimemcached/Conversation.cc:88-123 | such a stream yields the same requests in the same order and leaves the same rest however it is cut into reads |
| Chunking.ChunkingCondition | minimemcached/Conversation.cc:94-110 | splitting never matters if and only if no lone LF stands before a CR LF |
| Chunking.EveryLFAfterCR | minimemcached/Conversation.cc:94-110 | a stream whose every LF follows a CR meets that condition |
| Chunking.ReadsDoNotMatter | minimemcached/Conversation.cc:87-123 | without an accepted `set`, the connection's state, replies and rest are the same for every cutting of such a stream |
| Conversation.Conversation.TestHandler | minimemcached/Conversation.cc:27-34 | echoes every token, each with a space, and ends the line |
| Conversation.Conversation.GetHandler | minimemcached/Conversation.cc:38-58 | answers with the rendering of the bound entry or with the end mark alone; refuses exactly keys that do not fit |
| Conversation.Conversation.SetHandler | minimemcached/Conversation.cc:60-85 | awaits a value exactly if four words follow and the number is in range |
| Conversation.Conversation.HandleCommand | minimemcached/Conversation.cc:142-165 | does what the protocol's function says of the line |
| Conversation.Conversation.ReceiveValue | minimemcached/Conversation.cc:125-140 | stores a copy under the awaited key, which later changes of the entry at hand cannot reach |
| Conversation.Conversation.MsgCb | minimemcached/Conversation.cc:87-123 | the loop ends on every input and leaves conversation, store and buffer exactly as the protocol's function does |
| Conversation.Serve | minimemcached/Conversation.cc:87-140 | the same for a whole conversation in any number of reads with a new store |
| Demultiplexer.Demultiplexer.RegisterEvent | libeva/Reactor/Demultiplexer.cc:83-147 | after an update the kernel's mask is the event's, the descriptor is in the epoll set exactly if it is added, no call to epoll_ctl fails, and other descriptors keep theirs |
| Demultiplexer.Demultiplexer.UnregisterEvent | libeva/Reactor/Demultiplexer.cc:102-116 | the descriptor leaves map and epoll set; the kernel agrees with the event if and only if it asked for nothing |
| Demultiplexer.Demultiplexer.EnableReading | libeva/Reactor/Event.h:32 | sets the two read flags and leaves the write flag, in event and kernel |
| Demultiplexer.Demultiplexer.EnableWriting | libeva/Reactor/Event.h:33 | sets the write flag and leaves the two others, in event and kernel |
| Demultiplexer.Demultiplexer.DisableWriting | libeva/Reactor/Event.h:35 | clears the write flag and leaves the two others, in event and kernel |
| Demultiplexer.Demultiplexer.DisableAll | libeva/Reactor/Event.h:36 | asks for nothing, in event and kernel |
| Demultiplexer.Demultiplexer.Demultiplex | libeva/Reactor/Demultiplexer.cc:47-81 | the pointer reported for a descriptor is the event in the map, and that event gets the flags reported |
| Demultiplexer.Drive | libeva/Reactor/Demultiplexer.cc:83-147 | after any updates and removals of any events the kernel watches each descriptor for exactly the flags that its own event's updates have left standing, or for nothing if its event was removed last |
| Demultiplexer.UpdatesComeTo | libeva/Reactor/Event.h:32-36 | a flag stands if and only if it was enabled and not disabled since; a removal leaves the event's own flags standing, so a later update watches for them again |
| LogStream.TextReadsBack | libeva/Logger/LogStream.cc:45-67 | parsing the printed text gives the number back, the most negative included, and there is no superfluous zero |
| LogStream.TextFits | libeva/Logger/LogStream.cc:236-244 | the text of every number of up to 64 bits with its terminator fits the reserved 32 characters |
| LogStream.TextIsInjective | libeva/Logger/LogStream.cc:45-67 | different numbers are printed differently |
| LogStream.LowFirstReversed | libeva/Logger/LogStream.cc:52-64 | the digits as produced, reversed, are the digits of the number |
| LogStream.Convert | libeva/Logger/LogStream.cc:45-67 | the loop over the mirrored table and the reversal in place leave the text and a NUL, and nothing else changed |
| LogStream.ConvertHex | libeva/Logger/LogStream.cc:69-85 | the same in base 16 |
| LogStream.HexReadsBack | libeva/Logger/LogStream.cc:69-85 | a pointer's value reads back from its hexadecimal digits, which are sixteen at most |
| LogStream.FixedBuffer.FormatInteger | libeva/Logger/LogStream.cc:236-244 | a number is appended whole if 32 characters are free, and else not at all |

## Left out

- Memory reclamation in the lazy list (`delete curr`, marked FIXME in the source) and weak memory ordering: nodes are
  retained, and shared accesses are sequentially consistent.
- Keys of the concurrent list are ranks in the comparator's order; the head is below and the tail above all keys used.
  Calls with the greatest key or beyond are not modelled there. The sequential list of the store does model the greatest
  key, and requires that none is beyond it.
- A mutex section of the reactor, of the stealing queues and of the pool's shared queue is one step; inside the pool the
  two-lock queue is used through what `TwoLockQueue.dfy` proves of it. Spin locks may starve a thread.
- Blocking in `waitAndPop` and its notification: what a pop returns, and what one does that is woken, is modelled; that it
  is woken is not.
- The pool is fully built when a run begins; queues added while workers start are not modelled.
- Time wheel: floating point (whole microseconds are used), `timerfd`, `restart`, `delTimer`, `Timer::Join`; the width of
  `int` for a number of ticks; requests that other threads queue; callbacks that cancel timers or call `tock`.
- Cancel: does not model cancelling a timer that is not at the front of its list, for which the source follows a back
  link that it never sets.
- File: does not model what follows when a timer is put into the list being walked, which the source then takes apart;
  the model stops there.
- Sockets and system calls (`Acceptor`, `Socket`, `epoll_wait`, `readv`, `write`, `eventfd`, `shutdown`): their results are
  inputs.
- `TcpConnection::send` of a raw pointer from another thread, `handleRead`, `handleError` and connection set-up.
- `Buffer::swap`, `internalCapacity` and the searches from a given start.
- The store on several threads: the server runs one reactor, so each list is used by one thread at a time; what several
  threads make of a list is the subject of `LazyList*.dfy`. `HashSet::remove` and `setMaxKey`, which nothing calls.
- A conversation: the binary-protocol test, `sleep`, log output and the shrinking of the connection's output buffer; a
  number of bytes whose `atoi` overflows or runs on behind its token; values that arrive in several reads are stored in
  the part that is at hand, as in the source, and no claim about cutting covers them.
- Event callbacks (`Event::handle`) and flags other than those an event asks for.
- `LogStream`: floating point, SI and IEC formats, strings, and log files.
- `ds/LazyList/UnorderedLazyList.h`, `libeva/Thread/ThreadPool.*`, `CountDownLatch`, `ReactorThreadPool` and the examples
  would only add easy members or are not built.

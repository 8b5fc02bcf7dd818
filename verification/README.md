# Verified models of six components

The project models the parts of the repository whose correctness is argued in comments or taken on
trust, and proves the arguments:

- **Maximum bipartite matching** (`Matching.dfy`): the pairing of elements and matchers in googlemock.
- **The LRU cache** (`LruSpec.dfy`, `LruLaws.dfy`, `LruWorkingSet.dfy`, `SimpleLru.dfy`): the linked list
  with its index and byte budget, refined to a recency list; laws and the working-set guarantee over runs.
- **The thread pool** (`ThreadPool.dfy`): workers, clients and awaiters as steps over the shared state.
- **The reader/writer lock** (`SharedMutex.dfy`): two gates and one 32-bit word.
- **The text protocol front end** (`Parser.dfy`, `HeaderRoundTrip.dfy`, `ClientSession.dfy`,
  `Requests.dfy`, `RefusedHeaders.dfy`, `KeptBytes.dfy`, `Connection.dfy`, `GetCommand.dfy`, `Backend.dfy`): incremental parsing, framing, execution and output.
- **The spelling trie** (`EditScripts.dfy`, `Ranking.dfy`, `Bor.dfy`, `Spelling.dfy`): a trie and a pruned
  weighted edit search, shown equal to an enumeration of edit scripts and to the edit distance.

Code that changes objects in place is a class here, and its methods are proved against specification
functions; the promises are then proved about those. Threads are steps of a state machine: each region
under a mutex is one step, and parking, waking and late notifications are steps of their own. The classes
`Executor` and `SharedMutex` tie the regions of the code to those steps.

What turned out not to hold as promised, and when it does:

- Overwriting a cache entry with fewer bytes empties the cache, because the free bytes are compared as
  unsigned with a negative number; unless the budget is close to 2^64 it then reads a null tail
  (`SimpleLru.SimpleLRU.EvictWhileBelow`). `LruLaws.UnsignedRunsUntilShrink` says that a run
  is as intended exactly if it contains no such overwrite. Theorems with a `Comparison` parameter cover
  both readings; `Signed` is the intended one.
- The comment on the freshness of the list (SimpleLRU.h:65-66) has it the wrong way round; the model
  follows the code, where the head is the most recent entry.
- The digits of the expiration time are added up. `HeaderRoundTrip.RoundTrip` says which headers survive.
- Numbers over 2^32 are noticed only if a digit makes the wrapped value smaller than it was
  (`HeaderRoundTrip.WhatHeadersBecome`, with the witness `HeaderRoundTrip.MissedOverflow`).
- After an exception the connection keeps its bytes and the parser its progress, so the next read feeds those
  bytes again to a parser in the middle of a header, and a refused command can run with other numbers
  (`KeptBytes.RefusedIsBuilt`, with the witnesses `KeptBytes.RefusedFlags` and `KeptBytes.RefusedCount`).
- A set answers that it has stored even if key and value do not fit the cache (`Backend.SetMayNotStore`).
- What append stores is the old value with its line end, the argument and its line end (`Backend.SetAppendGet`); it
  answers STORED even if the longer value does not fit and the old one stays (`Backend.AppendTells`).
- max_diff can lose a word that is near enough behind a heavier one (`Ranking.SurvivesExactly`,
  `Ranking.HeavierHides`).
- An exception also keeps the event mask. If a command has run in that read and no answer waited before, its
  answer is not offered for writing until a later read succeeds; on connections without an exception or a
  stop, an answer that waits is always offered (`Connection.Connection.DoRead`, `Requests.StrayLineThrows`).
- A body of zero bytes is not framed: its line end is parsed as the next command
  (`Requests.ServedExactly`, `Requests.EmptyBodyThrows`). The argument of a command keeps its line end.
- `prepend` and `gets` are parsed, but no command can be built for them. `get` and `stats` carry no body.
- With two callers of `Stop(true)` one may wait for ever (`ThreadPool.LastWorkerOut`,
  `ThreadPool.TwoAwaitersStrand`); with both watermarks zero accepted tasks are never run.
- With more than N_READERS + 1 threads inside, a reader may wait for ever
  (`SharedMutex.OneThreadTooMany`).
- The trie search tries no insertion behind the last typed character, so scripts ending in one are not
  part of the specification, and the distance is taken without them; `EditScripts.AgreesExactly` says when
  that makes no difference, and `EditScripts.TrailingInsertionMatters` is a case where it does. The empty word is never found.
- The test in MoveToHead (SimpleLRU.cpp:29-31) for a neighbour without a neighbour of its own never succeeds;
  `SimpleLru.SimpleLRU.Splice` proves its branch dead.

## Model

| member | source | states |
|---|---|---|
| `BipartiteMatching.MaxBipartiteMatchState.TryAugment` | Multithreading C++/afina/third-party/googletest-release-1.8.0/googlemock/src/gmock-matchers.cc:259-285 | terminates; a failed search changes no link and leaves the start node's neighbours in a dead set; a successful one leaves the links mutually referent along edges, with only the start node newly used and every node the search had passed before untouched |
| `BipartiteMatching.MaxBipartiteMatchState.AugmentAll` | Multithreading C++/afina/third-party/googletest-release-1.8.0/googlemock/src/gmock-matchers.cc:222-230 | one pass over the left nodes, each unused when its turn comes, ends with consistent links and a dead set that holds every neighbour of every unused left node |
| `BipartiteMatching.CertificateBounds` | Multithreading C++/afina/third-party/googletest-release-1.8.0/googlemock/src/gmock-matchers.cc:210-221 | why visiting each left node once is enough: such a dead set bounds every other matching by the number of used links |
| `BipartiteMatching.Maximum` | Multithreading C++/afina/third-party/googletest-release-1.8.0/googlemock/src/gmock-matchers.cc:231-237 | certified links, read off in index order, are a matching and no matching of the graph is larger |
| `BipartiteMatching.MaxBipartiteMatchState.Compute` | Multithreading C++/afina/third-party/googletest-release-1.8.0/googlemock/src/gmock-matchers.cc:207-238 | the result is a matching in the order of its left nodes, and no matching is larger |
| `BipartiteMatching.FindMaxBipartiteMatching` | Multithreading C++/afina/third-party/googletest-release-1.8.0/googlemock/src/gmock-matchers.cc:307-310 | for every graph the pairs are in its set of edges, with distinct ends, in the order of their left nodes, and no larger such list exists |
| `BipartiteMatching.FindPairing` | Multithreading C++/afina/third-party/googletest-release-1.8.0/googlemock/src/gmock-matchers.cc:328-357 | true exactly when some choice of distinct elements gives every matcher one it has an edge with |
| `SimpleLru.SimpleLRU.MoveToHead` | Multithreading C++/afina/src/storage/SimpleLRU.cpp:10-34 | the pointer surgery takes the entry of the key to the front of the list and leaves the others in order; index, links, head and tail still describe the same nodes |
| `SimpleLru.SimpleLRU.PutInHead` | Multithreading C++/afina/src/storage/SimpleLRU.cpp:36-56 | refuses what can never fit, else evicts the shortest suffix that makes room and puts the new entry in front; the tail read by the loop is never null |
| `SimpleLru.SimpleLRU.EvictWhileBelow` | Multithreading C++/afina/src/storage/SimpleLRU.cpp:69-71 | under the signed reading, or when nothing shrinks, the loop of an overwrite ends without a null tail, with exactly the shortest suffix gone and the head still there; under the unsigned one a shrinking overwrite empties the list, and it reads a null tail exactly if the wrapped growth exceeds the budget |
| `SimpleLru.SimpleLRU.Put` | Multithreading C++/afina/src/storage/SimpleLRU.cpp:59-76 | refused exactly if key and value exceed the budget by themselves, undefined exactly if they fit, the comparison is unsigned and the value is shorter than the one there; stored, the entry is in front of the longest beginning of the others that still fits; refused, the key's entry is in front and nothing else moves |
| `SimpleLru.SimpleLRU.PutIfAbsent` | Multithreading C++/afina/src/storage/SimpleLRU.cpp:79-85 | true exactly if no entry had the key and key and value fit the budget; then the entry is in front of the longest beginning of the old list that still fits, and otherwise the list is as it was |
| `SimpleLru.SimpleLRU.Set` | Multithreading C++/afina/src/storage/SimpleLRU.cpp:88-104 | as Put for a present key; an absent key is reported and stays absent with the list as it was, a refused value still moves the key to the front |
| `SimpleLru.SimpleLRU.Delete` | Multithreading C++/afina/src/storage/SimpleLRU.cpp:107-127 | true exactly if the key was there; then its one entry is cut out, its bytes are free and the rest keeps its order, and otherwise nothing changes |
| `SimpleLru.SimpleLRU.Get` | Multithreading C++/afina/src/storage/SimpleLRU.cpp:130-137 | true exactly if the key is there; then its value is returned and its entry is in front of the others in their order, and otherwise the list and the caller's value stay |
| `SimpleLru.SimpleLRU.CacheValid` | Multithreading C++/afina/src/storage/SimpleLRU.h:60-73 | free bytes and entries together are the budget and the keys are distinct, in every state of the class invariant |
| `LruLaws.EvictKeepsFitting` | Multithreading C++/afina/src/storage/SimpleLRU.cpp:41-43 | eviction drops no more than it has to: every prefix that fits survives |
| `LruLaws.RunKeepsValid` | Multithreading C++/afina/src/storage/SimpleLRU.cpp:36-137 | the byte budget and the distinct keys hold after any run of operations, under both readings of the comparison |
| `LruLaws.UnsignedRunsUntilShrink` | Multithreading C++/afina/src/storage/SimpleLRU.cpp:68-71 | as compiled, a run agrees with the intended one exactly if no operation in it overwrites with fewer bytes, and is undefined otherwise |
| `LruLaws.MoveIsPlace` | Multithreading C++/afina/src/storage/SimpleLRU.cpp:10-34 | a hit is the same as putting the entry it found in front again |
| `LruLaws.OtherEntriesKept` | Multithreading C++/afina/src/storage/SimpleLRU.cpp:59-137 | an operation brings in no entry of another key, and a lookup or deletion loses none |
| `LruLaws.StoreThenGet` | Multithreading C++/afina/src/storage/SimpleLRU.cpp:59-76 | what a successful Put stored is what Get finds next; what Delete removed is gone |
| `LruLaws.PutTells` | Multithreading C++/afina/src/storage/SimpleLRU.cpp:59-76 | over the old list, entry by entry: when a Put is refused, stored or undefined, and the whole new list in each case; holds for both readings of the comparison |
| `LruLaws.PutIfAbsentTells` | Multithreading C++/afina/src/storage/SimpleLRU.cpp:79-85 | over the old list: stores exactly if no entry has the key and the new one fits, and what the new list is then; changes nothing otherwise |
| `LruLaws.SetTells` | Multithreading C++/afina/src/storage/SimpleLRU.cpp:88-104 | over the old list: what Set reports and leaves, for a present and an absent key |
| `LruLaws.DeleteTells` | Multithreading C++/afina/src/storage/SimpleLRU.cpp:107-127 | over the old list: Delete reports whether some entry has the key and cuts out that one |
| `LruLaws.GetTells` | Multithreading C++/afina/src/storage/SimpleLRU.cpp:130-137 | over the old list: Get reports whether some entry has the key, finds that one and puts it in front |
| `LruWorkingSet.CoveredFits` | Multithreading C++/afina/src/storage/SimpleLRU.cpp:36-104 | distinct entries whose sizes are covered by distinct charges take no more bytes than the charges |
| `LruWorkingSet.WorkingSetKept` | Multithreading C++/afina/src/storage/SimpleLRU.cpp:10-137 | over any run: an entry just touched and neither deleted nor rewritten is still in the cache if its bytes plus, for each other key touched since, the largest size that key had, do not exceed the budget |
| `LruWorkingSet.KeptWithin` | Multithreading C++/afina/src/storage/SimpleLRU.cpp:10-137 | the guarantee for any bounds a caller may know: if every entry that the operations find or leave under their keys is within one bound for each key, an entry just touched stays as long as its bytes and those bounds do not exceed the budget |
| `ThreadPool.Executor.Submit` | Multithreading C++/afina/include/afina/concurrency/Executor.h:98-127 | accepts exactly if the pool runs and fewer than max_queue_size tasks are queued; then the task is behind the others, and otherwise queue and counters are as before; starts a worker exactly if nobody sleeps and fewer than the high watermark run, and notifies one waiter if it did or somebody sleeps; the region is the Execute step of the protocol |
| `ThreadPool.Executor.LookForTask` | Multithreading C++/afina/src/concurrency/Executor.cpp:11-36 | takes the oldest task exactly if there is one; without one it parks exactly while the pool runs and the time is not up, and exits exactly if the pool stops or, the time being up, enough others sleep; counters, state and the notification of the last one out; the region is the Look step of the protocol |
| `ThreadPool.Executor.TaskDone` | Multithreading C++/afina/src/concurrency/Executor.cpp:43-44 | a worker that comes back is idle again |
| `ThreadPool.Executor.RequestStop` | Multithreading C++/afina/src/concurrency/Executor.cpp:63-72 | the state is Stopping and every parked worker is awake; the caller waits exactly if it asked to and threads run; the Stop step of the protocol |
| `ThreadPool.Executor.AwaitAgain` | Multithreading C++/afina/src/concurrency/Executor.cpp:67-71 | a later turn of the awaiter's loop is the Recheck step: it parks while threads run and returns otherwise |
| `ThreadPool.Executor.constructor` | Multithreading C++/afina/src/concurrency/Executor.cpp:48-61 | the counters start at the low watermark with that many workers |
| `ThreadPool.ExecuteDecides` | Multithreading C++/afina/include/afina/concurrency/Executor.h:98-127 | in every state: with the pool running and room in the queue the task goes to its end and a worker is started exactly if nobody sleeps and there are fewer than the high watermark; any other call changes nothing |
| `ThreadPool.RoomIsAccepted` | Multithreading C++/afina/include/afina/concurrency/Executor.h:103-112 | in every state a run can reach in which the pool runs and the queue has room, a call of Execute can follow, and however it goes the task is accepted behind those queued |
| `ThreadPool.LookDecides` | Multithreading C++/afina/src/concurrency/Executor.cpp:11-36 | where a look at the queue leaves the worker, by queue, state, clock and the number of those not executing |
| `ThreadPool.IdleWorkerLeaves` | Multithreading C++/afina/src/concurrency/Executor.cpp:30-35 | an idle worker whose time is up leaves exactly if more than the low watermark are not executing, and else nothing changes |
| `ThreadPool.StepKeeps` | Multithreading C++/afina/src/concurrency/Executor.cpp:9-45 | every step of workers, clients, time-outs and wake-ups keeps the counters exact, the bounds on threads and queue, the conservation of queued work and the order of the history |
| `ThreadPool.RunKeeps` | Multithreading C++/afina/src/concurrency/Executor.cpp:6-72 | the same in every state of every run |
| `ThreadPool.NeverStranded` | Multithreading C++/afina/include/afina/concurrency/Executor.h:102-126 | no interleaving strands an accepted task: while tasks are queued some live worker is not parked, without help from the time-out, if a watermark is positive |
| `ThreadPool.ZeroWatermarksStrand` | Multithreading C++/afina/include/afina/concurrency/Executor.h:114-122 | with both watermarks zero a task is accepted and no worker ever exists |
| `ThreadPool.StopDrains` | Multithreading C++/afina/src/concurrency/Executor.cpp:18-29 | after Stop, the work left plus the worker steps taken never exceeds the work there was: the pool drains in a bounded number of steps and accepts nothing new |
| `ThreadPool.WorkersCanMove` | Multithreading C++/afina/src/concurrency/Executor.cpp:12-24 | after Stop some worker can take a step exactly while workers are left: the draining cannot get stuck |
| `ThreadPool.AwaitReturnsDone` | Multithreading C++/afina/src/concurrency/Executor.cpp:67-71 | Stop(true) returns only when no thread runs and every accepted task was started once, in order, and has finished |
| `ThreadPool.StartedByLooks` | Multithreading C++/afina/src/concurrency/Executor.cpp:18-20 | of the tasks queued at any time, each look at the queue has started one, in order, until all are started |
| `ThreadPool.StartedByLook` | Multithreading C++/afina/src/concurrency/Executor.cpp:18-20 | the task at position n is started by look number n + 1, whoever looks |
| `ThreadPool.ShutdownCompletes` | Multithreading C++/afina/src/concurrency/Executor.cpp:18-29 | in any run with at most one Stop(true): no more worker steps follow a Stop than there is work, and once no worker can move, or that many steps were taken, no thread runs, nobody is parked and every accepted task was started once, in order, and has finished |
| `ThreadPool.LastWorkerOut` | Multithreading C++/afina/src/concurrency/Executor.cpp:23-27 | the last worker wakes one awaiter, so an awaiter is left behind exactly when more than one was parked |
| `ThreadPool.SingleAwaiterWoken` | Multithreading C++/afina/src/concurrency/Executor.cpp:26-26 | while Stop(true) is called at most once its caller is never parked without a worker that will wake it |
| `ThreadPool.TwoAwaitersStrand` | Multithreading C++/afina/src/concurrency/Executor.cpp:26-26 | a concrete run in which the second of two awaiters stays parked after the last worker has gone |
| `SharedMutex.CountStaysInBits` | Multithreading C++/afina/materials/09-advanced-synchronization/code/shared_mutex.h:152-153 | taking and giving back a share changes the count by one and never the write bit |
| `SharedMutex.ExclusiveStep` | Multithreading C++/afina/materials/09-advanced-synchronization/code/shared_mutex.cpp:6-69 | every step keeps: the low bits count the shared holders, the write bit is the one writer past gate 1, an exclusive holder has no reader beside it |
| `SharedMutex.RunExclusive` | Multithreading C++/afina/materials/09-advanced-synchronization/code/shared_mutex.cpp:6-69 | reader/writer exclusion in every state of every run |
| `SharedMutex.NoLostWakeUp` | Multithreading C++/afina/materials/09-advanced-synchronization/code/shared_mutex.cpp:25-31 | in every run with at most N_READERS + 1 threads inside: an unnotified waiter at gate 1 has a writer, a full count (readers) or an owed notification to wait for, one at gate 2 has a reader |
| `SharedMutex.OneThreadTooMany` | Multithreading C++/afina/materials/09-advanced-synchronization/code/shared_mutex.cpp:57-69 | the bound is exact: with one thread more a reader stays parked at gate 1 though the lock would admit it and nobody owes a notification |
| `SharedMutex.WriterShutsOutReaders` | Multithreading C++/afina/materials/09-advanced-synchronization/code/shared_mutex.cpp:6-14 | from the entry of a writer to its unlock the set of readers only shrinks |
| `SharedMutex.EntryDecides` | Multithreading C++/afina/materials/09-advanced-synchronization/code/shared_mutex.cpp:6-55 | who gets in, told by where the other threads are and not by the word: a writer when nobody reads and no writer is past gate 1, a reader when no writer is and fewer than 2^31 - 1 read; a try also needs the inner mutex, and a failed one changes nothing |
| `SharedMutex.LeavingDecides` | Multithreading C++/afina/materials/09-advanced-synchronization/code/shared_mutex.cpp:25-69 | who is woken by those that leave: all of gate 1 by a writer's notification, the waiting writer by the last reader, one of gate 1 by the reader that takes the count off its limit |
| `SharedMutex.SharedMutex.Lock` | Multithreading C++/afina/materials/09-advanced-synchronization/code/shared_mutex.cpp:6-14 | waits at gate 1 exactly if the write bit is set, and else sets it; then it has entered exactly if the word was zero and waits at gate 2 otherwise; the writer's step of the protocol, as a first turn and after a wake-up at gate 1 |
| `SharedMutex.SharedMutex.LookAgain` | Multithreading C++/afina/materials/09-advanced-synchronization/code/shared_mutex.cpp:12-13 | a turn of the second loop after a wake-up at gate 2: it waits again exactly while readers are left |
| `SharedMutex.SharedMutex.TryLock` | Multithreading C++/afina/materials/09-advanced-synchronization/code/shared_mutex.cpp:16-23 | enters exactly if the inner mutex was free and the word zero, and then the word is the write bit and the thread is the writer; else word and threads are as before |
| `SharedMutex.SharedMutex.Unlock` | Multithreading C++/afina/materials/09-advanced-synchronization/code/shared_mutex.cpp:25-31 | clears the word; the notification is a step of its own, after the mutex is released |
| `SharedMutex.SharedMutex.LockShared` | Multithreading C++/afina/materials/09-advanced-synchronization/code/shared_mutex.cpp:35-43 | takes a share, which adds one to the word, exactly if the word is below 2^31 - 1, and else waits at gate 1 with the word as it was; the reader's step of the protocol |
| `SharedMutex.SharedMutex.TryLockShared` | Multithreading C++/afina/materials/09-advanced-synchronization/code/shared_mutex.cpp:45-55 | enters exactly if the inner mutex was free and the word, that is no write bit and the count, is below 2^31 - 1, and then adds one to it; else word and threads are as before |
| `SharedMutex.SharedMutex.UnlockShared` | Multithreading C++/afina/materials/09-advanced-synchronization/code/shared_mutex.cpp:57-69 | takes one off the word; notifies gate 2 exactly when a writer has entered and no reader is left, gate 1 exactly when no writer has and the count was full, and whoever is woken is on its way |
| `Parser.HeaderParser.Consume` | Multithreading C++/afina/src/protocol/Parser.cpp:24-157 | one turn of the loop, field by field, is the step function, exceptions included; a throwing byte changes nothing |
| `Parser.HeaderParser.Parse` | Multithreading C++/afina/src/protocol/Parser.cpp:19-162 | the loop is one scan of the input: state, result and number of bytes, which stays zero when it throws |
| `Parser.HeaderParser.Reset` | Multithreading C++/afina/src/protocol/Parser.cpp:187-196 | everything is as constructed, except the sign flag, which is set before it is read |
| `Parser.CutsDoNotMatter` | Multithreading C++/afina/src/protocol/Parser.cpp:23-161 | any way to cut the header into calls of Parse gives the same fields, count and failure as one call |
| `Parser.ScanSound` | Multithreading C++/afina/src/protocol/Parser.cpp:165-184 | the parser always has the key that Build is going to read |
| `Parser.ThrowsExactly` | Multithreading C++/afina/src/protocol/Parser.cpp:24-157 | the bytes at which the parser throws, and no others: an unknown name's end, a digit that makes flags or byte count smaller modulo 2^32 or takes the time out of 32 bits, anything but a line feed behind the return |
| `Parser.NamesAndFillers` | Multithreading C++/afina/src/protocol/Parser.cpp:28-142 | what each known name is followed by; fields of numbers skip characters that are neither digits nor their end |
| `HeaderRoundTrip.RoundTrip` | Multithreading C++/afina/src/protocol/Parser.cpp:19-162 | a printed header, followed by anything and cut anyhow, parses to the same name, keys, flags, time and byte count and up to its line feed, exactly if flags and bytes are below 2^32 and the time lies between -9 and 9 |
| `HeaderRoundTrip.WhatHeadersBecome` | Multithreading C++/afina/src/protocol/Parser.cpp:23-161 | every printed header, followed by anything: it throws exactly if its flags or bytes wrap or the digits of its time add up to more than 32 bits hold; else it is parsed up to its line feed with its names and keys, flags and bytes modulo 2^32 and the signed digit sum of the time |
| `HeaderRoundTrip.FlagsRead` | Multithreading C++/afina/src/protocol/Parser.cpp:80-94 | a decimal number is rejected exactly if some digit makes the wrapped value smaller; else it is read modulo 2^32 |
| `HeaderRoundTrip.BytesRead` | Multithreading C++/afina/src/protocol/Parser.cpp:129-142 | the same for the byte count |
| `HeaderRoundTrip.SignedTimeRead` | Multithreading C++/afina/src/protocol/Parser.cpp:96-127 | a time is rejected exactly if the sum of its digits leaves 32 bits; else it becomes that sum, with the sign |
| `HeaderRoundTrip.SmallNumbersFit` | Multithreading C++/afina/src/protocol/Parser.cpp:86-90 | no number below 2^32 is rejected |
| `HeaderRoundTrip.MissedOverflow` | Multithreading C++/afina/src/protocol/Parser.cpp:86-90 | a witness: ten thousand million is over 2^32 and not rejected |
| `ClientSession.FeedHeader` | Multithreading C++/afina/src/network/st_nonblocking/Connection.cpp:47-68 | feeding a header is scanning it; its completion builds the command or throws, and a command without body runs at once |
| `ClientSession.FeedArgument` | Multithreading C++/afina/src/network/st_nonblocking/Connection.cpp:71-87 | the body is collected byte by byte and the command runs at its last byte, with all of it |
| `ClientSession.CutsAgree` | Multithreading C++/afina/src/network/st_nonblocking/Connection.cpp:37-104 | any two ways to cut an input stream execute the same commands with the same arguments, end in the same state and fail at the same byte |
| `Requests.ServedExactly` | Multithreading C++/afina/src/network/st_nonblocking/Connection.cpp:45-103 | a printed request is taken to its last byte and its command run once with its body, exactly if its numbers are representable, it is not prepend or gets, and a body it announces is not empty |
| `Requests.EmptyBodyThrows` | Multithreading C++/afina/src/network/st_nonblocking/Connection.cpp:54-57 | a storage request with an empty body runs at once with no argument, and then its line end throws |
| `Requests.RunServed` | Multithreading C++/afina/src/network/st_nonblocking/Connection.cpp:34-104 | any sequence of such requests, in any pieces, is executed once each, in order, and leaves nothing over |
| `Requests.ServedInOrder` | Multithreading C++/afina/src/protocol/Parser.cpp:165-184 | the n-th request served has run the command its name says, with its own key, flags, time or keys, and its body and line end as argument |
| `Requests.CallServes` | Multithreading C++/afina/src/network/st_nonblocking/Connection.cpp:34-113 | one call whose reads deliver a run of such requests takes all their bytes, carries every one of them out and leaves the buffer empty, however the reads cut them |
| `Requests.StrayLineThrows` | Multithreading C++/afina/src/network/st_nonblocking/Connection.cpp:82-113 | a request and a line end too many: the command has run when the parser throws |
| `RefusedHeaders.HeaderStops` | Multithreading C++/afina/src/protocol/Parser.cpp:23-161 | every refused header stops the parser in the field that overflows: flags, time or byte count, with the digits before the one that does, whatever follows |
| `KeptBytes.OddKeyThrows` | Multithreading C++/afina/src/protocol/Parser.cpp:80-142 | after refused flags, a key with a digit or a dash is taken for the time and the flags for the byte count, where they wrap again |
| `KeptBytes.SecondPass` | Multithreading C++/afina/src/protocol/Parser.cpp:80-154 | every refused header, with any key, fed again to the parser that has refused it: gets through exactly if, after refused flags, the key has no digit and no dash, the digits of the flags fit the time and the rest fits the byte count; after a refused time or byte count, the line up to its first return fits the byte count and ends there; and what it is read as then |
| `KeptBytes.RefusedIsBuilt` | Multithreading C++/afina/src/network/st_nonblocking/Connection.cpp:47-68 | so a refused command is built after all, with other numbers, exactly if there is such a command and that second pass gets through; otherwise the second pass throws and runs nothing |
| `KeptBytes.RefusedFlags` | Multithreading C++/afina/src/protocol/Parser.cpp:80-142 | a witness: flags of eleven nines come back as 1410065407, with time 99 |
| `KeptBytes.RefusedCount` | Multithreading C++/afina/src/protocol/Parser.cpp:129-142 | a witness: a byte count of 4772185880 comes back as one of 804960024 |
| `Connection.Connection.ParseHeader` | Multithreading C++/afina/src/network/st_nonblocking/Connection.cpp:47-68 | the search for a command in the buffer; the buffer keeps its bytes when the parser or the builder throws |
| `Connection.Connection.FillArgument` | Multithreading C++/afina/src/network/st_nonblocking/Connection.cpp:71-80 | as much of the argument as the buffer has is moved over |
| `Connection.Connection.Execute` | Multithreading C++/afina/src/network/st_nonblocking/Connection.cpp:83-96 | runs the command, queues exactly its answer with a line end behind the others, forgets command and argument and resets the parser |
| `Connection.Connection.ProcessBuffer` | Multithreading C++/afina/src/network/st_nonblocking/Connection.cpp:45-103 | the loop over the buffer feeds exactly its bytes, up to a failure or the stop flag |
| `Connection.Connection.DoRead` | Multithreading C++/afina/src/network/st_nonblocking/Connection.cpp:34-114 | from any state, for any sizes of the reads: takes something if the first read delivers something and there is room, by a single read the least of its size, the room and what is left, and when it ends because nothing more is delivered the sum of the sizes or all there is; the connection is where one pass over the bytes leads, and so from its very start; it stops exactly if the server was seen stopped after the last command; a failure keeps exactly the bytes behind the last command run, or the last piece read; event mask; and, told before the call from one pass over what it can reach: whether it fails, where it ends, and whether it leaves an answer unoffered |
| `Connection.Foretold` | Multithreading C++/afina/src/network/st_nonblocking/Connection.cpp:37-104 | while the server runs, a call fails exactly if one pass over all that its reads can reach throws, and ends in the session of that pass |
| `Connection.FailsFrom` | Multithreading C++/afina/src/network/st_nonblocking/Connection.cpp:49-68 | the bytes kept by a failure begin behind the last command run, or where the last piece begins if none has run in it |
| `Connection.TakesPlainly` | Multithreading C++/afina/src/network/st_nonblocking/Connection.cpp:37-43 | how many bytes a call takes, by plain sizes and the 4096 bytes of the buffer |
| `Connection.Connection.WriteV` | Multithreading C++/afina/src/network/st_nonblocking/Connection.cpp:118-131 | the bytes offered are the first of all pending ones, of at most 64 responses, and never none; with up to 64 responses all that is pending is offered |
| `Connection.Connection.Advance` | Multithreading C++/afina/src/network/st_nonblocking/Connection.cpp:144-152 | a partial write drops whole responses; sent plus pending bytes stay the same sequence |
| `Connection.Connection.DoWrite` | Multithreading C++/afina/src/network/st_nonblocking/Connection.cpp:117-166 | sends a prefix of the first pending bytes of at most 64 responses; sent and pending stay all answers in order, the offset lies inside the first response, and mask and life follow |
| `Connection.Connection.HandleEvent` | Multithreading C++/afina/src/network/st_nonblocking/ServerImpl.cpp:167-194 | whatever is read is handled as DoRead promises and a write with room sends something; errors and hang-ups close, and without them life and mask are those the read, and then the write, has left; under any events, failures and stop flags the invariant holds, so the assertion in DoWrite cannot fail: a live connection that asks for output has a response |
| `GetCommand.Execute` | Multithreading C++/afina/src/execute/Get.cpp:24-41 | prints the present keys in request order with the values they had before the command, and leaves the cache as a run of the lookups does |
| `GetCommand.FoundNext` | Multithreading C++/afina/src/execute/Get.cpp:32-38 | one key more in the request is one entry more in the answer, the one with the key, or none if there is none |
| `GetCommand.SameAnswer` | Multithreading C++/afina/src/execute/Get.cpp:32-37 | the lookups of one command do not change each other's answers |
| `GetCommand.RequestedKept` | Multithreading C++/afina/src/storage/SimpleLRU.cpp:10-56 | the working-set guarantee over commands: an entry that a get has found stays through the rest of its keys and any operations after it, as long as it fits together with what they touch |
| `GetCommand.AnswerDecodes` | Multithreading C++/afina/src/execute/Get.cpp:29-40 | a reader that goes by the printed lengths recovers exactly the present keys and values, in order, and stops at the end mark, whatever the values are |
| `Backend.AnsweredByCache` | Multithreading C++/afina/src/network/st_nonblocking/Connection.cpp:82-91 | each request is answered by the cache as the requests before it have left it |
| `Backend.SetMayNotStore` | Multithreading C++/afina/src/execute/Set.cpp:10-14 | a set always answers that it has stored, but the key holds the value exactly if both fit the budget, or held it before |
| `Backend.AddTells` | Multithreading C++/afina/src/execute/Add.cpp:11-14 | over the old list: an add is answered STORED exactly if no entry has the key and the new one fits, and only then is the entry stored, in front; otherwise NOT_STORED and nothing changes |
| `Backend.AppendTells` | Multithreading C++/afina/src/execute/Append.cpp:10-19 | over the old list: an append is answered STORED exactly if the key is there; then the old value followed by the argument is stored in front if it fits, and otherwise the entry stays and is moved to the front; it is never undefined, under either comparison |
| `Backend.ExecuteSet` | Multithreading C++/afina/src/execute/Set.cpp:10-14 | on the cache itself: the answer is always STORED, and the list is what a Put leaves |
| `Backend.ExecuteAdd` | Multithreading C++/afina/src/execute/Add.cpp:11-14 | on the cache itself: answers and stores as AddTells says |
| `Backend.ExecuteAppend` | Multithreading C++/afina/src/execute/Append.cpp:10-19 | on the cache itself: Get and then Put amount to what AppendTells says |
| `Backend.StoredStays` | Multithreading C++/afina/src/execute/Set.cpp:10-14 | a stored value is still there after any commands that leave its key alone, as long as it fits together with what they touch |
| `Backend.SetThenGet` | Multithreading C++/afina/src/network/st_nonblocking/Connection.cpp:34-104 | from the wire to the cache and back: a set, such commands, and a get of its key, in any pieces, are served, and the get is answered with the body and its line end |
| `Backend.SetAppendGet` | Multithreading C++/afina/src/execute/Append.cpp:10-19 | from the wire: a set, an append to its key that fits with it, and a get, in any pieces, are served; the append is answered STORED and the get with both bodies, each with its line end |
| `Bor.Bor.Fit` | Information retrieval/homeworks/spellcheker/Bor.py:16-26 | the trie holds exactly the words of the language model with their probabilities, the empty one excepted, whatever the order |
| `Bor.Bor.AddWord` | Information retrieval/homeworks/spellcheker/Bor.py:18-26 | one word more, its last node marked |
| `Bor.Bor.Search` | Information retrieval/homeworks/spellcheker/Bor.py:28-70 | one triple for each edit script admitted from the node, none twice, none missing, changes before insertions before deletions wherever two scripts part; each a dictionary word below the node with its probability and a weight within the limit |
| `Bor.DeadEnd` | Information retrieval/homeworks/spellcheker/Bor.py:42-61 | edits towards missing children lead to no dictionary word |
| `Bor.Bor.BestMatch` | Information retrieval/homeworks/spellcheker/Bor.py:101-117 | searches, ranks, removes repetitions and cuts, for every combination of the optional limits |
| `EditScripts.AdmittedExactly` | Information retrieval/homeworks/spellcheker/Bor.py:28-70 | the scripts followed are those that use up the typed word, do not end in an insertion, spell a dictionary word and never exceed the limit on the way |
| `EditScripts.PruningLosesNothing` | Information retrieval/homeworks/spellcheker/Bor.py:31-32 | with weights that are not negative the pruning keeps every script whose whole cost is within the limit |
| `EditScripts.DistanceIsLowerBound` | Information retrieval/homeworks/spellcheker/Bor.py:40-68 | no script from a word costs less than the edit-distance recurrence says |
| `EditScripts.DistanceIsReached` | Information retrieval/homeworks/spellcheker/Bor.py:40-68 | and some script costs exactly that |
| `EditScripts.FullIsReached` | Information retrieval/homeworks/spellcheker/Bor.py:34-38 | the distance with insertions behind the last typed character is that of some beginning of the word plus the insertion of the rest |
| `EditScripts.AgreesExactly` | Information retrieval/homeworks/spellcheker/Bor.py:34-38 | the search's distance is that full one exactly if no proper beginning of the word, with the rest inserted behind it, is cheaper |
| `EditScripts.TrailingInsertionMatters` | Information retrieval/homeworks/spellcheker/Bor.py:34-38 | a witness: with default weights the full distance of ab and the typed a is 100, and the search's is 200 |
| `Spelling.OneMatchForEachScript` | Information retrieval/homeworks/spellcheker/Bor.py:28-70 | the result is one triple per dictionary word and script within the limit, in the order of the scripts |
| `Spelling.LeastWeight` | Information retrieval/homeworks/spellcheker/Bor.py:28-70 | a word is found exactly if its edit distance is within the limit, and the least of its weights is that distance |
| `Spelling.OneChange` | Information retrieval/homeworks/spellcheker/ErrorModel.py:73-79 | for a word with one character typed for another: it is matched with the weight un_prob[typed][meant] of the table, or 100 if there is none, exactly if that weight and zero are within the limit |
| `Spelling.OneInsertion` | Information retrieval/homeworks/spellcheker/Bor.py:55-61 | for a word with one character left out before the end: the same with un_prob['_'][meant] |
| `Spelling.OneDeletion` | Information retrieval/homeworks/spellcheker/Bor.py:63-68 | for a word with one character too many: the same with un_prob[typed]['_'] |
| `Spelling.NoEdit` | Information retrieval/homeworks/spellcheker/Bor.py:42-53 | a dictionary word typed as it is is matched with weight zero |
| `Spelling.MatchedIsReturned` | Information retrieval/homeworks/spellcheker/Bor.py:101-117 | without match_num and max_diff exactly the words of the matches are returned, whatever the weights |
| `Spelling.BestByDistance` | Information retrieval/homeworks/spellcheker/Bor.py:101-117 | without further limits best_match returns each word within the limit once, in the order of alpha times probability plus beta times distance |
| `Spelling.FitAndMatch` | Information retrieval/homeworks/spellcheker/spellchecker.py:14-18 | a trie made for any language model, fitted and asked: exactly the words matched are returned, and a one-letter word whose table weight for the typed letter is within the limit is one of them |
| `Ranking.RankedIsSorted` | Information retrieval/homeworks/spellcheker/Bor.py:104-104 | ranking permutes the matches into the order of their scores |
| `Ranking.RankedIsStable` | Information retrieval/homeworks/spellcheker/Bor.py:104-104 | matches with equal scores keep their order |
| `Ranking.SurvivesExactly` | Information retrieval/homeworks/spellcheker/Bor.py:107-112 | a word survives max_diff exactly if every match ranked up to its first one is within it |
| `Ranking.HeavierHides` | Information retrieval/homeworks/spellcheker/Bor.py:107-112 | a witness: a word as near as allowed is lost behind a heavier one that scores better |
| `Ranking.NumberExactly` | Information retrieval/homeworks/spellcheker/Bor.py:113-115 | match_num takes that many words if there are more, and all if it is zero or less |
| `Ranking.LimitsOnlyCut` | Information retrieval/homeworks/spellcheker/Bor.py:107-117 | match_num and max_diff only shorten the list of words |

## Left out

- Sockets, epoll, descriptors and threads of the servers: a read is some bytes of a stream, as many as the
  caller of the model chooses up to the room in the buffer; a write is accepted in part, refused or failed.
- Other users of the storage: to a connection, the answer of the n-th command is a function of n, the command
  and its argument, which is a parameter. Backend.dfy supplies it from the list specification of the cache for a
  connection that has the cache to itself; what the commands write to the standard output is left out.
- Expiration and flags of stored values: the parser carries them into the command, and nothing uses them.
- Closing of idle connections and deletion of connection objects in the event loop.
- The other three servers: the same framing around other ways to wait; the locked cache wrapper.
- Time: the idle time-out of a worker may pass whenever it looks at the queue; waits may end spuriously.
- Exceptions that threads or memory allocation raise, and what submitted functions do.
- Ownership by unique pointers and the destructor of the cache: nodes are plain references, and an evicted
  node is unlinked and dropped from the index, not freed. Its next link is not cleared.
- Integers: vectors, strings and counters are unbounded where the sources have size_t or int; wrap-around is
  modelled in the fields of the parser, in the lock word and in the comparison of the cache.
- Parser.HeaderParser.Consume: a signed overflow of the expiration time, undefined in C++, is taken as a
  wrap-around, which is what the test behind it is written for.
- SharedMutex: timed_lock and timed_lock_shared are declared and have no body in the repository; shared_lock only
  forwards to the lock.
- BipartiteMatching: MatchMatrix is declared in a header that is not part of this model; the matrix is
  a set of edges here. The explanations written to the listener are left out.
- Bor.Bor.Search: the parts of the method in Bor.py are methods of their own; the children of a node are
  visited in any order, as the order of a dictionary is not relied on. The recursion limit is left out.
- Bor.Bor.BestMatch: the sort of the library is a stable insertion, written as a function; weights are exact
  reals, rounding is left out.
- BM25, the language model, the neural network code, logging, the coroutine engine and the allocator.

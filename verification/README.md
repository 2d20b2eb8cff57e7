# Verified models of the thread pools, codecs and I/O loops

The repository collects Linux system programs. This project models the seven of them that
carry real algorithms, in Dafny 4.11, and proves what they are for. `dafny verify
dfyconfig.toml` checks all of it.

- **Two thread pools** (`SimplePool*.dfy`, `TaskPool*.dfy`, `ThreadPoolObject.dfy`, over the
  rings of `Rings.dfy`). A pool is a step system: each thread has a program counter, each
  condition variable the set of threads parked on it, a signal wakes one of them if there is
  one, and any of them may wake spuriously. What a mutex protects is one step, except that
  `shutdown` is written without it, so each read of the flag is a step of its own. The numbers
  of producers and workers are arbitrary, and the theorems are about every reachable state or
  every run. The rings and the slot table are also classes whose methods update arrays in
  place, proved against functions (`Put`, `Take`, `Rank`, `Refilled`) that the theorems about
  the step systems use too.
- **The protobuf codec of Student and Stus** (`Wire.dfy`, `WireFormat.dfy`, `StudentCodec.dfy`,
  `StudentFields.dfy`, `StudentMessages.dfy`). `Wire` is the format of the "Protocol Buffers Encoding" document
  (sections "Base 128 Varints", "Length-Delimited Records", "Last One Wins", and groups);
  `WireFormat` states it byte by byte; `StudentCodec` gives the meaning of the generated code on
  values, and `StudentFields` reads the result of a parse off the fields of the input; `StudentMessages` has the
  generated classes, whose methods assign fields in loops. Doubles are their 64 bits.
- **Percent-encoding** (`PercentCodec.dfy`), sections 2.1 and 2.3 of RFC 3986, with the
  decoder working inside its own input buffer.
- **Line reading** (`LineReading.dfy`: the pieces of a stream, and `get_line`; `TextLines.dfy`:
  what it makes of lines of text), and **looping
  and buffered I/O** (`WrapIo.dfy`) over a kernel that cuts each transfer as it likes,
  interrupts calls and may fail; `Transfer.dfy` runs a writer and a reader through one channel
  in any interleaving.
- **Dining philosophers** (`Philosophers.dfy`) around a table of any size.
- **The shared table of keys** (`KeyTable.dfy`), which refines a map of bounded size.

## Where the code does not do what one might expect

- A worker of `threadpool.c` that was woken for a task may end itself instead, and the wake-up
  is lost. `TaskPoolRuns.WakeupsStep` says which step does this and that no other does,
  `TaskPoolLiveness.EveryTaskIsExecuted` that a pool whose run has no such step finishes
  everything, workers retired or not, and `TaskPoolLostWakeup.WakeupCanBeLost` that after one
  such step a task can stay queued for ever, the manager notwithstanding.
  A pool of fixed size, or with fewer than ten places in its queue, has no such step
  (`TaskPoolRuns.SafeParameters`).
- With `min_thr_num == 0` a task can be stored when there is no worker. With
  nothing more stored it stays queued for ever, since the manager starts threads only when at
  least ten tasks are queued (`TaskPoolLostWakeup.NobodyIsLeft`); with `min_thr_num >= 1` every
  run without a losing step finishes everything.
- After `shutdown = true` in `threadpool.c`, nobody wakes a caller that waits for room in the
  queue: its call never returns. The broadcast also misses a worker that has read the flag and
  is about to wait. `TaskPoolShutdown.ShutdownMisses` says that these are all, and
  `CallCanBeStranded` and `BroadcastCanMiss` that both happen.
- A grow pass of `threadpool.c` may start fewer than `min(10, max - live)` threads, by at most
  the number of workers that had given themselves up but not terminated when it began
  (`TaskPoolGrow.GrowPassStarts`). `TaskPoolLostWakeup.GrowPassCanStartNobody` is such a pass.
- Once `shutdown` is set in `threadpoolsimple.c`, a task is executed if and only if it was
  finished or already in its callback (`SimplePoolShutdown.ShutdownExecutesOnlyCallbacks`). Each
  worker that ends takes one more task with it, unexecuted; `TasksAfterShutdown` says which
  tasks are dropped and which stay queued, `TaskCanBeDropped` is a run with a dropped one.
- The broadcast that follows is made without the lock and misses a worker that has read the
  flag and is about to wait: that one waits until a new task wakes it
  (`SimplePoolShutdown.ShutdownMissesOnlyWillWait`, `BroadcastCanMiss`).
- The serializer drops a score of -0.0. A student survives a round trip, and `CopyFrom`,
  exactly when its score is not -0.0; `MergeFrom` of a Stus copies each student by merging it
  into a new one, and so drops it too.
- Writing a Stus uses the sizes cached in its students, and gives the serialization if and only
  if all of them are current (`StudentCodec.CurrentSizesSerialize`). A Stus that was only parsed
  has none cached, and what is written can parse as another message
  (`StudentCodec.StaleSizeLosesStudent`); `ByteSizeLong` makes the sizes current as long as each
  student is written in less than 4 GiB.
- `%00` decodes to a terminator, so what a C caller of `strdecode` sees is the whole decoding if
  and only if the string holds no `%00` (`PercentCodec.DecodedCString`).
- `Readline` returns one more than it stored when it filled the buffer before an LF, and its
  read-ahead buffer belongs to no descriptor.
- In the key table a blank slot compares equal to a node with two empty ids. The invariant
  covers this, so the refinement of a map holds for every key, that one included.
- `ShmRead` uses names that are not declared (`m_maxNode`, `clientID`, `serverID`), and so does
  the output of `ShmWrite` (`serverId`); they are read as `maxNode`, the two parameters and
  `serverID`. The constructor that takes a path leaves `maxNode` uninitialised; the model is of
  tables made by the other one.

## Model

| member | source | states |
|---|---|---|
| Rings.WrappedPut | concurrence_linux/14_thrpoll/threadpool.c:161-164 | storing at the rear of a ring that is not full appends to the queue, inside the array, and keeps rear == (front + size) % max |
| Rings.WrappedTake | concurrence_linux/14_thrpoll/threadpool.c:219-223 | the task at the front is the oldest one and the rest of the queue stays as it was |
| Rings.CountersRefineWrapped | concurrence_linux/14_thrpoll/threadpoolsimple.c:84-124 | free-running counters seen through % max are the wrapped ring: same queue, and both operations commute with that view |
| Rings.CountersPut | concurrence_linux/14_thrpoll/threadpoolsimple.c:84-92 | storing at job_push % max appends to the queue |
| Rings.CountersTake | concurrence_linux/14_thrpoll/threadpoolsimple.c:120-124 | the copy from job_pop % max is the oldest task and the rest of the queue stays |
| SimplePool.InvStep | concurrence_linux/14_thrpoll/threadpoolsimple.c:72-139 | every step of any thread, spurious wake-ups and the unlocked shutdown included, keeps the invariant on lock, history and wake-ups |
| SimplePool.FirstInFirstOut | concurrence_linux/14_thrpoll/threadpoolsimple.c:84-124 | in every run the tasks copied out are those stored first, in order, and the k-th of them has task number k |
| SimplePool.ExactlyOnce | concurrence_linux/14_thrpoll/threadpoolsimple.c:117-138 | a task that left the ring is in exactly one place (one worker, finished once, or dropped at shutdown), a queued one in none |
| SimplePool.NoMisuse | concurrence_linux/14_thrpoll/threadpoolsimple.c:112-138 | the ring never under- or overflows and a callback always runs on a task that was taken |
| SimplePool.NoLostWakeup | concurrence_linux/14_thrpoll/threadpoolsimple.c:76-126 | a parked worker means job_num <= woken workers + owed signals; a parked producer means free places <= woken producers |
| SimplePool.NoDeadlock | concurrence_linux/14_thrpoll/threadpoolsimple.c:76-126 | never is everybody parked, and never are jobs queued with every worker parked and no signal owed |
| SimplePool.InternalRunIsBounded | concurrence_linux/14_thrpoll/threadpoolsimple.c:72-139 | each step of the pool's own lowers a measure, so a run without new calls is finite |
| SimplePool.Progress | concurrence_linux/14_thrpoll/threadpoolsimple.c:72-139 | unless everything is done some step of the pool's own is enabled |
| SimplePool.EveryTaskIsExecuted | concurrence_linux/14_thrpoll/threadpoolsimple.c:72-139 | under any scheduling a pool left alone comes to rest with every stored task executed exactly once and every call returned |
| SimplePoolCalls.PassedIsStoredOrPending | concurrence_linux/14_thrpoll/threadpoolsimple.c:72-94 | in every run the descriptors passed to addtask, read off the actions, are as a bag those of the stored tasks and of the calls that have not stored theirs |
| SimplePoolCalls.StoresWhatWasPassed | concurrence_linux/14_thrpoll/threadpoolsimple.c:87-92 | a call stores the descriptor that its thread passed last, under the next number |
| SimplePoolCalls.EveryTaskPassedIsExecuted | concurrence_linux/14_thrpoll/threadpoolsimple.c:72-139 | a pool left alone ends with each descriptor handed to a callback as often as it was passed |
| SimplePoolCalls.SignalWakesOne | concurrence_linux/14_thrpoll/threadpoolsimple.c:97 | the signal after a store wakes exactly one waiting worker, if there is one |
| SimplePoolCalls.TakeWakesOne | concurrence_linux/14_thrpoll/threadpoolsimple.c:126 | taking a task wakes exactly one waiting caller, if there is one |
| SimplePoolShutdown.ShutdownMissesOnlyWillWait | concurrence_linux/14_thrpoll/threadpoolsimple.c:57-134 | with no call going on, after the broadcast the workers take a bounded number of steps and then each has exited if and only if it was not between reading the flag and waiting |
| SimplePoolShutdown.EveryWorkerExits | concurrence_linux/14_thrpoll/threadpoolsimple.c:57-134 | all workers exit if and only if none was about to wait when the broadcast was made |
| SimplePoolShutdown.BroadcastCanMiss | concurrence_linux/14_thrpoll/threadpoolsimple.c:57-115 | a reachable state in which the broadcast is made while a worker is about to wait |
| SimplePoolShutdown.ShutdownExecutesOnlyCallbacks | concurrence_linux/14_thrpoll/threadpoolsimple.c:117-138 | in every run from a state with shutdown set, a task is executed if and only if it was finished or in its callback there |
| SimplePoolShutdown.TasksAfterShutdown | concurrence_linux/14_thrpoll/threadpoolsimple.c:117-138 | at the end the tasks executed are those, the last ones stay queued (as many as there are more tasks than workers to pass the dequeue), and the rest are dropped |
| SimplePoolShutdown.TaskCanBeDropped | concurrence_linux/14_thrpoll/threadpoolsimple.c:117-134 | a run in which a stored task is dropped and never executed |
| SimplePool.TaskRing.Add | concurrence_linux/14_thrpoll/threadpoolsimple.c:84-92 | the in-place store is Put, appends to the queue and numbers the task |
| SimplePool.TaskRing.Remove | concurrence_linux/14_thrpoll/threadpoolsimple.c:119-124 | the in-place removal is Take and returns the oldest task |
| SimplePool.TaskRing.constructor | concurrence_linux/14_thrpoll/threadpoolsimple.c:21-28 | a new ring is valid and empty |
| TaskPoolProofs.InvStep | concurrence_linux/14_thrpoll/threadpool.c:137-326 | every step of producers, workers, manager and destroyer keeps the six-part invariant |
| TaskPoolRuns.ThreadAccounts | concurrence_linux/14_thrpoll/threadpool.c:193-296 | min <= live <= max, 0 <= busy <= live, 0 <= wait_exit <= 10, busy counts the workers between increment and decrement, live the started ones less those that gave up |
| TaskPoolRuns.QueueIsSafe | concurrence_linux/14_thrpoll/threadpool.c:142-229 | with shutdown set at any moment no worker dequeues from an empty ring, no producer overwrites a full one, a parked producer means a full queue, and a callback always has a task |
| TaskPoolRuns.ExactlyOnce | concurrence_linux/14_thrpoll/threadpool.c:137-245 | stored tasks are the fetched ones in order and then the queue; as a bag they are the queued, held and finished ones |
| TaskPoolCalls.PassedIsStoredOrPending | concurrence_linux/14_thrpoll/threadpool.c:137-171 | in every run without shutdown the tasks passed to threadpool_add, read off the actions, are as a bag the stored ones and those of the calls that have not returned |
| TaskPoolCalls.StoredInOrder | concurrence_linux/14_thrpoll/threadpool.c:160-164 | the stored tasks are, store by store in the order of the run, what the storing thread passed last |
| TaskPoolCalls.EveryTaskPassedIsExecuted | concurrence_linux/14_thrpoll/threadpool.c:137-245 | a pool with min_thr_num >= 1 left alone without a lost wake-up ends with each task executed as often as it was passed |
| TaskPoolManager.GrowsExactlyWhen | concurrence_linux/14_thrpoll/threadpool.c:260-270 | among the steps of all others, a grow pass starts if and only if the manager saw at least 10 tasks queued and fewer live threads than the maximum |
| TaskPoolManager.ShrinksExactlyWhen | concurrence_linux/14_thrpoll/threadpool.c:260-296 | after the grow pass it asks for 10 retirements if and only if twice the busy threads were fewer than the live ones it had seen, and those more than the minimum |
| TaskPoolManager.RetirementsAreRequested | concurrence_linux/14_thrpoll/threadpool.c:193-205 | in every run no more workers retire than ten for each turn of the manager |
| TaskPoolManager.TenSignals | concurrence_linux/14_thrpoll/threadpool.c:298-302 | a request is followed by ten signals |
| TaskPoolManager.SignalWakesOne | concurrence_linux/14_thrpoll/threadpool.c:167-301 | a signal of a store or of the manager wakes exactly one waiting worker, if there is one |
| TaskPoolManager.ManagerEnds | concurrence_linux/14_thrpoll/threadpool.c:255-306 | with shutdown set the manager ends after a bounded number of its steps |
| TaskPoolRuns.SlotsAreDistinct | concurrence_linux/14_thrpoll/threadpool.c:276-287 | live workers always sit in slots of their own |
| TaskPoolRuns.ScanIsSafe | concurrence_linux/14_thrpoll/threadpool.c:276-287 | no turn of a scan overwrites a live worker's slot; a turn starts a thread exactly at a free slot below both limits |
| TaskPoolRuns.FreeSlotCount | concurrence_linux/14_thrpoll/threadpool.c:276-287 | by pigeonhole the free slots are max - live, less the workers in mid-exit, plus those that ended at shutdown |
| TaskPoolRuns.WakeupsStep | concurrence_linux/14_thrpoll/threadpool.c:137-302 | until shutdown, a step of any thread keeps every queued task matched by a wake-up if and only if it is not that of a worker retiring while another waits and every other wake-up is spoken for |
| TaskPoolRuns.GaveUpGrows | concurrence_linux/14_thrpoll/threadpool.c:193-205 | the workers that gave themselves up never become fewer, and one more does so exactly in the retiring branch |
| TaskPoolRuns.NoLostWakeup | concurrence_linux/14_thrpoll/threadpool.c:160-206 | in every run without shutdown, retirements included, a parked worker means queue_size <= workers woken or about to fetch, at all times if and only if the run has no losing step |
| TaskPoolRuns.SafeParameters | concurrence_linux/14_thrpoll/threadpool.c:190-296 | with min_thr_num == max_thr_num, or fewer than ten places, no run has a losing step and every queued task is always matched by a wake-up |
| TaskPoolLiveness.InternalRunIsBounded | concurrence_linux/14_thrpoll/threadpool.c:137-245 | each step of workers and pending calls lowers a measure |
| TaskPoolLiveness.Progress | concurrence_linux/14_thrpoll/threadpool.c:137-245 | with a live worker and no wake-up lost some step is enabled until everything is done |
| TaskPoolLiveness.EveryTaskIsExecuted | concurrence_linux/14_thrpoll/threadpool.c:137-245 | under any scheduling a pool left alone comes to rest; if no step lost a wake-up and min_thr_num >= 1, every stored task was executed exactly once and every call has returned; without a minimum, if and only if a worker is left or nothing is queued |
| TaskPoolLostWakeup.WakeupCanBeLost | concurrence_linux/14_thrpoll/threadpool.c:190-206 | a reachable state with a task queued and a live worker parked, from which no run of workers, pending calls and manager changes the queue or a worker |
| TaskPoolLostWakeup.GrowPassCanStartNobody | concurrence_linux/14_thrpoll/threadpool.c:270-288 | a reachable grow pass that starts nobody although live_thr_num is below the maximum |
| TaskPoolLostWakeup.NobodyIsLeft | concurrence_linux/14_thrpoll/threadpool.c:190-302 | with min_thr_num == 0 and any other parameters, a run without loss to a stored task and no worker, from which no run of workers, pending calls and manager changes anything |
| TaskPoolShutdown.WaitingCallNeverReturns | concurrence_linux/14_thrpoll/threadpool.c:142-152 | with shutdown set, a call that waits for room does so for ever, under every step of any thread but a spurious wake-up of its own |
| TaskPoolShutdown.GivingUpWakesAll | concurrence_linux/14_thrpoll/threadpool.c:147-152 | a call that finds shutdown set stores nothing, returns and wakes every waiting worker |
| TaskPoolShutdown.ShutdownMisses | concurrence_linux/14_thrpoll/threadpool.c:317-326 | after the broadcast the threads take a bounded number of steps, and then a call has returned if and only if it was not waiting for room or about to, and, with no other call going on, a worker has ended if and only if it was not about to wait |
| TaskPoolShutdown.FetchedTasksAreExecuted | concurrence_linux/14_thrpoll/threadpool.c:210-245 | at that end exactly the tasks fetched when shutdown was set have been executed, and the queue is as it was |
| TaskPoolShutdown.CallCanBeStranded | concurrence_linux/14_thrpoll/threadpool.c:142-145 | a reachable state with shutdown set and a call waiting for room |
| TaskPoolShutdown.BroadcastCanMiss | concurrence_linux/14_thrpoll/threadpool.c:187-190 | a reachable state in which the broadcast is made while a worker is about to wait |
| TaskPoolGrow.GrowPassStarts | concurrence_linux/14_thrpoll/threadpool.c:270-288 | a whole pass, interleaved with all other threads, is the scan for the answers it got; it starts min(10, max - live) threads less at most one per worker in mid-exit at its beginning, so exactly that many if there was none |
| ThreadPoolObject.ThreadPool.constructor | concurrence_linux/14_thrpoll/threadpool.c:73-119 | empty queue, min threads in the first slots, the other slots empty |
| ThreadPoolObject.ThreadPool.Enqueue | concurrence_linux/14_thrpoll/threadpool.c:161-164 | the in-place store is Put and appends to the queue |
| ThreadPoolObject.ThreadPool.Dequeue | concurrence_linux/14_thrpoll/threadpool.c:219-223 | the in-place removal is Take and returns the oldest task |
| ThreadPoolObject.ThreadPool.GrowScan | concurrence_linux/14_thrpoll/threadpool.c:273-285 | for any answers about the threads, asked anew at each slot, a whole scan starts exactly min(10, max - live, free slots) threads, in the first free slots, and leaves every other slot alone |
| ThreadPoolObject.GrowPassFindsRoom | concurrence_linux/14_thrpoll/threadpool.c:270-288 | in every reachable state the usable slots are max - live corrected by exiting workers, and suffice for min(10, max - live) threads if and only if those that ended at shutdown make up for those in mid-exit or ten are left |
| Wire.VarintRoundTrip | protobuf_test/Student.pb.cc:247-249 | reading a 64-bit number written as a varint gives it back and stops right behind it |
| Wire.BytesRoundTrip | protobuf_test/Student.pb.cc:259-260 | the same for a length-delimited record |
| Wire.FixedRoundTrip | protobuf_test/Student.pb.cc:271-273 | the same for a little-endian fixed-width number |
| Wire.FieldsRoundTrip | protobuf_test/Student.pb.cc:285-286 | every sequence of fields, groups nested to any depth included, is read back from its encoding |
| Wire.ParseConcatenation | protobuf_test/Student.pb.cc:238-290 | once a first part parses, parsing both parts is parsing the second and appending its fields |
| Wire.FieldsSizeIsLength | protobuf_test/Student.pb.cc:365-369 | the computed size of unknown fields is the length of their encoding |
| WireFormat.VarintValue | protobuf_test/Student.pb.cc:309 | the bytes of a varint hold the number seven bits each, the least significant first |
| WireFormat.VarintShape | protobuf_test/Student.pb.cc:309 | all of them but the last have the top bit set, and the last is no idle zero |
| WireFormat.VarintRead | protobuf_test/Student.pb.cc:247-249 | a varint is read up to the first byte without the top bit, modulo 2^64 |
| WireFormat.VarintUnread | protobuf_test/Student.pb.cc:247-249 | without such a byte among the first ten there is no varint |
| WireFormat.FixedShape | protobuf_test/Student.pb.cc:320 | a fixed-width number is written in that many bytes, the least significant first |
| WireFormat.FixedRead | protobuf_test/Student.pb.cc:271-273 | it is read from that many bytes, and not at all from fewer |
| WireFormat.FieldLayout | protobuf_test/Student.pb.cc:309-325 | each kind of field begins with its number and the kind's code in one varint |
| WireFormat.KindOfField | protobuf_test/Student.pb.cc:242-286 | the kind and number of the field read are those of its tag |
| WireFormat.NotAField | protobuf_test/Student.pb.cc:282-286 | number 0 and the codes 4, 6 and 7 start no field |
| WireFormat.GroupEnds | protobuf_test/Student.pb.cc:285-286 | an unknown group ends at the end tag of its own number, and with another number's it is not read |
| WireFormat.StudentLayout | protobuf_test/Student.pb.cc:301-328 | the bytes of a Student: tags 8, 18 and 25 before the values that are set, in this order, then the unknown fields |
| WireFormat.StusLayout | protobuf_test/Student.pb.cc:606-648 | the bytes of a Stus: tag 34, length and bytes for each student in order, then the unknown fields |
| StudentFields.ParsedStudent | protobuf_test/Student.pb.cc:238-290 | a parse succeeds if and only if the input is a sequence of fields; id, name and score are those of their last field, a default on the wire included, and all other fields are kept in order |
| StudentFields.ParsedStus | protobuf_test/Student.pb.cc:569-595 | a parse succeeds if and only if the input is a sequence of fields and every record of field 4 is a Student; the students are those records in order, all other fields are kept in order |
| StudentFields.CutRecordFails | protobuf_test/Student.pb.cc:576-578 | a record that ends inside its first field makes the parse fail |
| StudentFields.StudentLoopStops | protobuf_test/Student.pb.cc:239-296 | after any fields the loop succeeds where no tag can be read and fails where a field cannot |
| StudentFields.StusLoopStops | protobuf_test/Student.pb.cc:570-601 | the same for Stus |
| StudentCodec.StudentLoopParses | protobuf_test/Student.pb.cc:238-290 | the tag loop reads a whole input exactly when it is a sequence of fields, and then merges those fields in order |
| StudentCodec.StusLoopParses | protobuf_test/Student.pb.cc:569-595 | the same for Stus, where each record of field 4 must parse as a Student |
| StudentCodec.SignExtendRoundTrip | protobuf_test/Student.pb.cc:309 | every int32 survives sign extension to 64 bits, and a negative one takes ten bytes |
| StudentCodec.StudentRoundTrip | protobuf_test/Student.pb.cc:238-328 | parsing a serialized Student into a fresh one gives it back up to -0.0, and exactly it if and only if its score is not -0.0 |
| StudentCodec.ParseSerialized | protobuf_test/Student.pb.cc:238-328 | parsing a serialized Student into any message is MergeFrom |
| StudentCodec.ParseConcatenated | protobuf_test/Student.pb.cc:238-290 | parsing two parts is parsing the second into the result of the first |
| StudentCodec.ConcatenationIsMerge | protobuf_test/Student.pb.cc:413-430 | parsing Serialize(a) ++ Serialize(b) gives a merged with b, up to -0.0 |
| StudentCodec.MergeIsMonoid | protobuf_test/Student.pb.cc:413-430 | merging is associative, the cleared message is its right identity, and its left identity exactly for scores other than -0.0 |
| StudentCodec.StudentSizeIsLength | protobuf_test/Student.pb.cc:361-391 | the size pre-pass of a Student equals the bytes written |
| StudentCodec.StusRoundTrip | protobuf_test/Student.pb.cc:564-648 | a Stus comes back with all students in order and all unknown fields, up to -0.0, and exactly if and only if no student has that score |
| StudentCodec.StusConcatenationIsMerge | protobuf_test/Student.pb.cc:694-702 | parsing Serialize(a) ++ Serialize(b) gives a merged with b, up to -0.0 |
| StudentCodec.StusMergeIsMonoid | protobuf_test/Student.pb.cc:694-702 | merging is associative and the cleared message its identity, on the left up to -0.0 |
| StudentCodec.StusSizeIsLength | protobuf_test/Student.pb.cc:650-672 | the size of a Stus, length prefixes included, equals the bytes written |
| StudentCodec.CurrentSizesSerialize | protobuf_test/Student.pb.cc:606-648 | what is written is the serialization if and only if every cached size is current, for all messages and sizes |
| StudentCodec.WithoutSizePass | protobuf_test/Student.pb.cc:634-640 | with no size cached since a parse, it is so if and only if every student is written as nothing |
| StudentCodec.CachedSizesAreCurrent | protobuf_test/Student.pb.cc:393-394 | the sizes that the pre-pass caches are current if and only if every student is written in less than 4 GiB |
| StudentCodec.StaleSizeLosesStudent | protobuf_test/Student.pb.cc:634-640 | a parsed message of one student that is written without a size pass and parses as another message |
| StudentMessages.StudentMessage.MergePartialFromCodedStream | protobuf_test/Student.pb.cc:233-298 | the loop on the object succeeds exactly on well-formed input and leaves the fields merged |
| StudentMessages.StudentMessage.SerializeWithCachedSizes | protobuf_test/Student.pb.cc:301-328 | appends exactly the serialization |
| StudentMessages.StudentMessage.InternalSerializeWithCachedSizesToArray | protobuf_test/Student.pb.cc:330-359 | writes the same bytes at the target and no others |
| StudentMessages.StudentMessage.ByteSizeLong | protobuf_test/Student.pb.cc:361-396 | returns the length of the serialization and caches it as an int |
| StudentMessages.StudentMessage.MergeFrom | protobuf_test/Student.pb.cc:413-430 | is the merge of values |
| StudentMessages.StudentMessage.CopyFrom | protobuf_test/Student.pb.cc:439-444 | copies up to -0.0; copying from itself changes nothing |
| StudentMessages.StusMessage.MergePartialFromCodedStream | protobuf_test/Student.pb.cc:564-603 | succeeds exactly on well-formed input whose records parse, and leaves the students appended, with no sizes cached |
| StudentMessages.StusMessage.SerializeWithCachedSizes | protobuf_test/Student.pb.cc:606-626 | writes each student behind the size cached for it, then the unknown fields |
| StudentMessages.StusMessage.InternalSerializeWithCachedSizesToArray | protobuf_test/Student.pb.cc:628-648 | writes the same bytes at the target and no others |
| StudentMessages.StusMessage.ByteSizeLong | protobuf_test/Student.pb.cc:650-677 | returns the length of the serialization, caches it as an int and makes the students' cached sizes current, if and only if each is below 4 GiB |
| StudentMessages.StusMessage.MergeFrom | protobuf_test/Student.pb.cc:694-702 | appends copies of the students, with no sizes cached, and the unknown fields |
| StudentMessages.StusMessage.CopyFrom | protobuf_test/Student.pb.cc:711-716 | copies up to -0.0; copying from itself changes nothing |
| PercentCodec.HexitIgnoresCase | concurrence_linux/13_libevent_web/pub.c:91-101 | two hexadecimal digits have the same value if and only if they differ in case alone |
| PercentCodec.DecodedLength | concurrence_linux/13_libevent_web/pub.c:110-129 | decoding shortens a string by two for each position at which an escape starts: escapes never overlap and none is missed |
| PercentCodec.NoEscapeNoChange | concurrence_linux/13_libevent_web/pub.c:110-129 | decoding changes nothing if and only if no escape starts anywhere |
| PercentCodec.DecodeConcatenation | concurrence_linux/13_libevent_web/pub.c:110-129 | decoding distributes over a cut if and only if it is not inside an escape |
| PercentCodec.StrDecode | concurrence_linux/13_libevent_web/pub.c:110-129 | with `to` at or before `from` in one buffer that may end with the terminator, the result is the decoding of the original and every other byte is unchanged |
| PercentCodec.DecodeEscape | concurrence_linux/13_libevent_web/pub.c:115-121 | % before two hexadecimal digits, given by their ASCII ranges, stands with them for the byte of that value |
| PercentCodec.DecodeOther | concurrence_linux/13_libevent_web/pub.c:122-125 | every other byte stands for itself |
| PercentCodec.DecodedCString | concurrence_linux/13_libevent_web/pub.c:112-128 | the C string left behind is the whole decoding if and only if the string holds no %00 |
| PercentCodec.DecodeEncode | concurrence_linux/13_libevent_web/pub.c:110-149 | the decoder inverts the encoder on every byte string, whatever follows it |
| PercentCodec.RoundTrip | concurrence_linux/13_libevent_web/pub.c:110-149 | decoding an encoded string gives it back |
| PercentCodec.EncodedByteIs | concurrence_linux/13_libevent_web/pub.c:138-146 | a byte of 0-9, A-Z, a-z and "-./_~", given by ASCII codes, is written as itself and any other as % and two lower-case hexadecimal digits of its value |
| PercentCodec.EncodeConcatenation | concurrence_linux/13_libevent_web/pub.c:137-147 | a string is encoded byte by byte |
| PercentCodec.EncodedBytes | concurrence_linux/13_libevent_web/pub.c:133-149 | the encoding has only bytes of that set and %, and at most three bytes for one |
| PercentCodec.FitIsFirst | concurrence_linux/13_libevent_web/pub.c:137 | the encoder stops at the first byte that does not find five bytes of room |
| PercentCodec.StrEncode | concurrence_linux/13_libevent_web/pub.c:133-149 | writes the whole encoding of a prefix and a terminator, and nothing at or behind tosize |
| PercentCodec.TruncationIsClean | concurrence_linux/13_libevent_web/pub.c:91-149 | the output decodes to that prefix, which is the whole string if and only if its last byte found five bytes of room, so always when tosize >= 3n + 2 |
| Lines.PieceIsPiece | concurrence_linux/14_thrpoll/wrap.c:261-283 | a piece is a beginning of the stream with no LF before its last byte that stops only at an LF, a full buffer or the end |
| Lines.PieceIsUnique | concurrence_linux/14_thrpoll/wrap.c:261-283 | nothing else is such a beginning |
| Lines.PiecesAreTheStream | concurrence_linux/14_thrpoll/wrap.c:254-285 | pieces taken with any rooms are a beginning of the stream; with some room each, as many as there are bytes give all of it |
| LineReading.NormalizedShape | concurrence_linux/13_libevent_web/pub.c:70-78 | normalising leaves no CR, removes one byte for each CR LF, and changes nothing if and only if there is no CR |
| LineReading.NormalizeConcatenation | concurrence_linux/13_libevent_web/pub.c:70-78 | it may be done part by part if and only if no cut splits a CR LF |
| TextLines.NormalizedLines | concurrence_linux/13_libevent_web/pub.c:66-78 | text as lines, each ended by CR LF, CR or LF, becomes the same lines each ended by LF, and nothing else changes |
| TextLines.EveryStreamSplits | concurrence_linux/13_libevent_web/pub.c:66-78 | every stream is such a text |
| TextLines.EachCallReturnsALine | concurrence_linux/13_libevent_web/pub.c:58-88 | with sizes of at least two more than its line, the i-th call returns the i-th line and LF |
| LineReading.NextByte | concurrence_linux/13_libevent_web/pub.c:66-78 | the reads of one turn deliver one byte of the normalised stream, or nothing exactly at its end |
| LineReading.GetLine | concurrence_linux/13_libevent_web/pub.c:58-88 | for any size stores the next piece of the normalised stream and a terminator, and leaves the normalisation of what is left as the rest: no CR LF is split |
| LineReading.GetLines | concurrence_linux/13_libevent_web/pub.c:58-88 | successive calls, of any sizes, return the pieces of the normalised stream in order, each byte once; with sizes of at least 2 enough calls return all of it |
| WrapIo.Readn | concurrence_linux/14_thrpoll/wrap.c:154-186 | under any schedule the first j bytes are the next j of the stream, with j == n unless the stream ends; -1 exactly after a hard error |
| WrapIo.Writen | concurrence_linux/14_thrpoll/wrap.c:189-221 | the result is the number of leading bytes sent, short of n if and only if a write accepted nothing; -1 exactly after a hard error |
| WrapIo.LineReader.MyRead | concurrence_linux/14_thrpoll/wrap.c:223-252 | read-ahead and stream together lose exactly the byte returned; 0 only at the end, -1 exactly after a hard error, and then nothing is lost |
| WrapIo.LineReader.Readline | concurrence_linux/14_thrpoll/wrap.c:254-285 | the stored line is the next piece of the stream however the kernel cut it; the result is one more than its length if and only if the buffer filled without an LF |
| WrapIo.LineReader.ReadLines | concurrence_linux/14_thrpoll/wrap.c:223-285 | under any schedule of short reads and EINTR successive calls return the pieces of the stream in order, each byte once; enough calls return all of it |
| Transfer.InvStep | concurrence_linux/14_thrpoll/wrap.c:163-218 | every turn of either loop keeps received ++ in flight == leading bytes sent, and lowers a measure |
| Transfer.TransferIsExact | concurrence_linux/14_thrpoll/wrap.c:154-221 | in every interleaving the reader holds the leading bytes sent, ends with all it asked for or all that was sent, and the turns are bounded |
| Transfer.StuckExactlyWhen | concurrence_linux/14_thrpoll/wrap.c:154-221 | the two calls cannot go on if and only if both returned, or the reader has and the writer faces a full channel |
| Philosophers.InvStep | concurrence_linux/7_thread_sync/7_philosopher.c:27-37 | after every call on a mutex its owner is exactly the philosopher whose program counter says so |
| Philosophers.NeighboursNeverEatTogether | concurrence_linux/7_thread_sync/7_philosopher.c:29-33 | in every run two neighbours never eat together, for any N >= 2 |
| Philosophers.AtMostHalfEat | concurrence_linux/7_thread_sync/7_philosopher.c:29-33 | at most half of the philosophers eat at once |
| Philosophers.WaitersHoldNothing | concurrence_linux/7_thread_sync/7_philosopher.c:29 | who waits for a fork holds none, and its owner can take a step |
| Philosophers.NoDeadlock | concurrence_linux/7_thread_sync/7_philosopher.c:27-37 | in every reachable state somebody can take a step |
| Philosophers.ForksAreFreed | concurrence_linux/7_thread_sync/7_philosopher.c:29-35 | in every run the owner of a fork puts it down within three steps of its own |
| Philosophers.LastForkFeedsSomebody | concurrence_linux/7_thread_sync/7_philosopher.c:16-25 | of the two philosophers who try the last fork, one that tries it gets to eat or the other is eating |
| Philosophers.SomebodyGetsToEat | concurrence_linux/7_thread_sync/7_philosopher.c:27-37 | in every run in which one of these two takes three steps of its own, somebody eats |
| KeyTable.WriteKeepsInv | shm_test/SecKeyShm.cpp:41-71 | a write keeps every key in one slot, and a node without ids in front of every blank slot |
| KeyTable.ReadRefines | shm_test/SecKeyShm.cpp:101-118 | a read returns the map's node for the key, or the blank node if there is none, for every key |
| KeyTable.SlotsAreCounted | shm_test/SecKeyShm.cpp:60-71 | keys and blank slots add up to maxNode |
| KeyTable.WriteChangesOneKey | shm_test/SecKeyShm.cpp:41-71 | after a write its key reads as the node written and every other key as before |
| KeyTable.ReadIsFirstMatch | shm_test/SecKeyShm.cpp:101-118 | a read returns the first node whose two ids are the given ones as C strings, or the blank node |
| KeyTable.WriteThenRead | shm_test/SecKeyShm.cpp:26-123 | after a write that succeeded its client and server id read as the node written, and every other pair of ids as before |
| KeyTable.WriteFails | shm_test/SecKeyShm.cpp:41-76 | a write fails if and only if no slot has its two ids and none is blank |
| KeyTable.WriteRefines | shm_test/SecKeyShm.cpp:26-80 | a write fails if and only if the key is absent and no slot is blank, and otherwise is the map update, or the removal when the node is blank |
| KeyTable.RunRefines | shm_test/SecKeyShm.cpp:26-80 | any sequence of writes, failed ones included, is the same sequence on the map |
| KeyTable.ReadsLastWrite | shm_test/SecKeyShm.cpp:26-123 | after any sequence of writes a read of two ids returns the last node with these ids whose write succeeded |
| KeyTable.ZeroedTable | shm_test/SecKeyShm.cpp:18-24 | a zeroed table is the empty map and reads blank everywhere |
| KeyTable.SecKeyShm.InitShm | shm_test/SecKeyShm.cpp:18-24 | makes every byte of every slot zero, which is the empty map |
| KeyTable.SecKeyShm.ShmWrite | shm_test/SecKeyShm.cpp:26-80 | the two scans over the slots are the write of the specification, 0 or -1 and the new table |
| KeyTable.SecKeyShm.ShmRead | shm_test/SecKeyShm.cpp:82-123 | the scan returns the first node whose ids match as C strings, or the blank node |

## Left out

- `threadpool_free`, `destroy_threadpool` and the end of `threadpool_destroy`: they free memory and destroy locks that detached workers may still use; shutdown is a flag and a broadcast here.
- The task callbacks: a callback is one terminating step. Failing `malloc` and `pthread_create`, reuse of thread identifiers, and `int` overflow of counters are not modelled.
- Data races: a read or write of `shutdown` is atomic, and so is what a mutex protects.
- Fairness: the liveness theorems say that runs without new calls end with everything done; they do not say that a given thread is scheduled.
- StudentMessages.StudentMessage.MergePartialFromCodedStream: after a failed parse the fields are left unspecified; the library's recursion limit is not modelled, and a nested record that ends early counts as malformed.
- StudentCodec.StusRoundTrip: for students and unknown records below 2 GiB, which is what the library accepts.
- StudentMessages.StusMessage.MergePartialFromCodedStream: a student that is added is a new object; the library may reuse a cleared one, which keeps the size last cached in it.
- StudentMessages.StusMessage.SerializeWithCachedSizes: with a stale size the library's stream lets the body overrun a direct buffer of the cached size, and later bytes may overwrite it; the model appends the bytes that the array writer makes. With current sizes they agree.
- TaskPoolLiveness.EveryTaskIsExecuted: starts where no task lacks its wake-up and the manager holds no lock, and leaves out the manager's own steps, new calls and spurious wake-ups, without which the run is finite.
- TaskPoolShutdown.ShutdownMisses: a call that gives up broadcasts again and the manager may still signal, either of which can wake the missed worker; so its second part has no such call going on, and the manager's steps are left out.
- SimplePoolShutdown.ShutdownMissesOnlyWillWait: a producer inside `addtask` could still signal the worker that was missed, so no call is going on.
- The students of a Stus are values beside their cached sizes, so pointers into the message are not modelled. Arenas, reflection, descriptors and `Swap` are library plumbing.
- `addressbook.pb.cc` and `message.pb.cc`: the same generated shape with more fields.
- LineReading.GetLine: a receive error counts as the end of the stream, as in the source, but errors in the middle of a stream are not modelled.
- WrapIo.LineReader.Readline: the theorem about successive calls is about one descriptor; reading two in turn hands out the read-ahead of the one to the other.
- Transfer.TransferIsExact: takes one turn of `Readn` or `Writen` as a step and has no hard errors; those are in `Readn` and `Writen`.
- `Read` and `Write` of `wrap.c`, and the socket wrappers: single system calls.
- KeyTable.SecKeyShm.ShmWrite: assumes that mapping the segment succeeds, that both ids are terminated inside their fields, and that no other process writes at the same time.
- `tcp_linux`, the reactor, the web server mains, the condition-variable and semaphore demos, and the OpenSSL, process, signal and pipe demos.
- Console output and `sleep`.

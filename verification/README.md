# udp-file-proxy: a verified model

udp-file-proxy sends files over UDP. A client process cuts each file into
numbered datagrams and paces them with a shared bandwidth allocator; a receiving
process (Sudp) posts every datagram to a System V message queue, a second thread
reassembles files from that queue, and a thread pool runs the work that follows a
complete file. This project models those parts in Dafny and proves what they do
over all inputs, all interleavings and all loss patterns covered below.

| module | what it models |
|---|---|
| `Bytes`, `Wire` | integers in memory, the datagram layout and its field reads |
| `Segmentation`, `Cudp` | cutting a file into packets; `SendPack_ex` with its one message buffer |
| `Speed` | the bandwidth allocator as a class and as a machine of concurrent senders; pacing |
| `SpeedLimits`, `SpeedSchedules` | for how many threads no order of queries and returns divides by zero, and the schedules that do otherwise |
| `MessageQueue`, `Sudp`, `FileProcess` | `msgsnd`/`msgrcv`, the socket loop, the reassembly thread |
| `Transfer` | the whole pipeline over a lossless in-order channel |
| `Lossy` | a channel that loses packets, with a receiver that keeps up |
| `Backlog` | a backlog with the packets of each file in any order |
| `Breakage` | runs outside those assumptions in which a file is reported wrongly |
| `PoolProtocol`, `PoolShutdown`, `ThreadPool` | the pool over all interleavings; its linked queue, simulating the machine |
| `SendList`, `FileThread`, `Registry` | the queue of files of an application, its consumer, the list of applications |
| `Config` | `Trim`, `AnalyseLine`, `split` and reading back a printed command |
| `FileHelper` | copying and moving a received file |

Conventions. Classes follow the source's mutable objects; each method is tied by
its `ensures` to a function of the old state, and the properties are lemmas about
those functions. Where threads share data under a mutex, one critical section is
one step. The two `msgrcv` calls of a receiver turn are separate steps.

Channel assumptions are part of each theorem: `Transfer` takes neither loss nor
reordering and any schedule; `Lossy` takes any loss, no reordering, and at most one
message queued at a time; `Backlog` takes all packets of a file queued before the
file is read.

Findings the model states exactly:

- With the last packet of a file and the first of the next one lost, the receiver
  can report the first file with packets of the second at its end.
  `Lossy.LossyTransfer` says for every loss pattern that the reports are right if and
  only if the losses are `Clean`, a condition on which packets are lost and how many
  a file has; `Lossy.FileOutcome` says what is reported otherwise, and the runs in
  `Breakage` show it. Losing no packet 1 is enough (`Lossy.FirstPacketsSuffice`).
- The comments of `AnalyseLine` promise that `#` starts a comment. Its first `substr`
  has a length of `1 - end_pos`, so lines of two kinds are read differently
  (`Config.Misread`); `Config.ReadAsIntendedIff` shows there are no others.
- `set_speed` keeps the old `base_speed`, which is 80 in the default object.
  `Speed.BalancedIff`: for every maximum and base, the total is the sum of the grants
  held in every run, and the correction to 0 in `return_speed` is never needed, if and
  only if `2 * base_speed <= max_speed + 1`. After set_speed up to 158 two senders
  leave bandwidth booked that nobody holds (`Speed.SmallSpeedLeaks`).
- A grant of 0 is divided by. `SpeedSchedules.ServesIff` says for every maximum and base
  whose books balance, and every number of threads, whether some order of queries and
  returns leads there: the default speed serves eleven threads in every order and twelve
  not (`DefaultServesEleven`); at 160 and 161 the first query of a single thread is
  granted 0 (`NobodyServed`).
- A write of 0 bytes ends `file_helper_copy`'s inner loop without an error. For every
  schedule of system calls a result of 0 means an exact copy if and only if no write
  that was made returned 0 (`FileHelper.ExactIffNoZeroWrite`); a move then removes the
  only complete copy (`FileHelper.MoveKeepsContent`).
- `threadpool_destroy` does not wait for threads inside `threadpool_add_job`. It frees
  the pool under none of them in any schedule if and only if none was inside when it
  closed the queue, blocked or on its way to the mutex, and none enters later
  (`PoolShutdown.FreeIsSafeIff`, `PoolShutdown.LateCallIsUnsafe`). So the refusal that
  `add_job` has for calls after the close does not protect them.

## Model

| member | source | states |
|---|---|---|
| Bytes.ByteAt | udp-file-proxy/Cudp.cpp:223-227 | byte i of an integer copied into the message has weight 256^i |
| Bytes.MemoryRoundTrip | Sudp/thread_process.c:198-219 | every field of bytes is the integer it is read as |
| Bytes.SignedRange | Sudp/Sudp.c:292 | a field is read in two's complement |
| Wire.FieldPositions | udp-file-proxy/Cudp.cpp:216-227 | version 0x0F, tag, number, size, name length, name, payload length and payload of an encoded packet lie where the sender writes them |
| Wire.DecodeEncode | Sudp/thread_process.c:198-233 | the receiver's reads give back number, size, name and payload from any buffer that starts with the datagram, whatever an earlier longer message left behind it |
| Segmentation.PayloadsCoverTail | udp-file-proxy/Cudp.cpp:239-268 | what was sent before packet k and the payloads from k on make up the file |
| Segmentation.SegmentationIsExact | udp-file-proxy/Cudp.cpp:239-268 | payloads of 1 to 1024 bytes concatenate to the file, numbers are 1..n, every packet carries size and name, the tag is 0x13 alone and else 0x14, 0x15.., 0x16, and n is the pack_total the receiver computes from the size field |
| Segmentation.PackTotalIsLeast | Sudp/thread_process.c:198-201 | pack_total is the least number of 1024-byte packets that hold the size |
| Cudp.Put | udp-file-proxy/Cudp.cpp:223-227 | a memcpy into the message buffer changes the named bytes and no others |
| Cudp.Prepare | udp-file-proxy/Cudp.cpp:216-227 | the fixed header part is in place before the first packet |
| Cudp.ChooseTag | udp-file-proxy/Cudp.cpp:244-257 | the tag chosen from the byte counts is the one of the packet's position |
| Cudp.FilledHolds | udp-file-proxy/Cudp.cpp:253-268 | writing packet k over a prepared buffer, whatever it held, leaves it prepared and starting with exactly that packet's encoding |
| Cudp.Fill | udp-file-proxy/Cudp.cpp:257-268 | the bytes sent from the reused buffer are exactly the encoding of the current packet |
| Cudp.PrefixOfDatagrams | udp-file-proxy/Cudp.cpp:239-304 | packets sent one after the other are a prefix of the file's datagrams, and all of them when their number is reached |
| Cudp.SendNext | udp-file-proxy/Cudp.cpp:241-295 | one turn up to Sendto: the packet's encoding, a new grant and wait_t when it is due, and whether it is sent |
| Cudp.SendLoop | udp-file-proxy/Cudp.cpp:239-304 | the loop ends at the first fault or after the last packet, having sent the packets before it |
| Cudp.SendPackEx | udp-file-proxy/Cudp.cpp:183-337 | each exit is taken exactly under the stated condition on the faults, the grant, pack_t and the number of packets; what went out is a prefix of the file's datagrams of the stated length, all of them on success; the call has slept wait_t after packet 1 and after every pack_t-th; queries and returns take turns, one query for packet 1 and every pack_t-th, and the grant is back |
| Speed.SpeedManger.Default | udp-file-proxy/proxy_client.cpp:323-332 | the default object has 800 with base 80 |
| Speed.SpeedManger.WithSpeed | udp-file-proxy/proxy_client.cpp:334-344 | base_speed is a tenth of the given speed |
| Speed.SpeedManger.QuerySpeed | udp-file-proxy/proxy_client.cpp:346-366 | the grant is the specified share of what is idle and is added to the total |
| Speed.SpeedManger.ReturnSpeed | udp-file-proxy/proxy_client.cpp:369-376 | the returned speed leaves the total, which is clamped at 0 |
| Speed.SpeedManger.SetSpeed | udp-file-proxy/proxy_client.cpp:407-410 | only max_speed changes |
| Speed.GrantShare | udp-file-proxy/proxy_client.cpp:350-359 | a query takes half of what is idle, rounded down, less base_speed while more than half of the maximum is idle |
| Speed.QuotientTruncates | udp-file-proxy/Cudp.cpp:280 | division truncates toward zero |
| Speed.GrantBounds | udp-file-proxy/proxy_client.cpp:350-359 | a query takes at most half of what is idle and gives 0 exactly when one unit is left |
| Speed.FairIffPositive | udp-file-proxy/proxy_client.cpp:350-359 | every query with two idle units is positive if and only if base_speed is below (max/2+1)/2 |
| Speed.StepSound | udp-file-proxy/Cudp.cpp:271-282 | with the head room each query or return by any sender keeps the books balanced, and the clamp of return_speed does not fire |
| Speed.DropKeepsHalving | udp-file-proxy/proxy_client.cpp:369-376 | whichever holder returns its grant, the younger grants are still at most half of what the older ones leave |
| Speed.AlwaysSound | udp-file-proxy/Cudp.cpp:271-335 | with the head room, in every reachable state of any senders the total is the sum of the grants held, in 0..max-1, each grant at most half of max, and 0 when nobody holds one |
| Speed.IdleOfHalving | udp-file-proxy/proxy_client.cpp:346-366 | k grants that halve leave at least max / 2^k |
| Speed.IdleLowerBound | udp-file-proxy/proxy_client.cpp:346-376 | in every reachable state with k holders, idle * 2^k >= max, for any order of queries and returns |
| Speed.QueryPositive | udp-file-proxy/Cudp.cpp:278-280 | a query while k others hold is positive when max > 2^k |
| SpeedLimits.HoldersLeave | udp-file-proxy/proxy_client.cpp:346-376 | k grants that coexist leave at least Floor(k), whatever was granted and returned in between |
| SpeedLimits.NeverDividesByZero | udp-file-proxy/Cudp.cpp:278-280 | with the head room and n sending threads the pacing division is defined in every order of queries and returns if n - 1 grants leave at least two units |
| SpeedLimits.LargeMaximum | udp-file-proxy/proxy_client.cpp:346-359 | they do for every max > 2^(n-1) |
| SpeedLimits.TightServes | udp-file-proxy/Cudp.cpp:278-280 | without the head room, the same if n - 1 halvings of max - 2 * base leave at least 2 |
| SpeedLimits.OneSenderServed | udp-file-proxy/Cudp.cpp:271-282 | a single thread whose first grant is not 0 is always served, for any max and base |
| SpeedLimits.EveryoneLeft | udp-file-proxy/Cudp.cpp:305-335 | in any interleaving of threads whose last call is a return, nothing is booked once all have left |
| SpeedSchedules.Quarter | udp-file-proxy/proxy_client.cpp:346-376 | whatever is held already, some schedule gives one more thread a quarter of max although more than half is idle |
| SpeedSchedules.FairCrash | udp-file-proxy/Cudp.cpp:278-280 | with the head room, if n - 1 grants can leave one unit, some order of n threads divides by zero |
| SpeedSchedules.TightCrash | udp-file-proxy/Cudp.cpp:278-280 | the same without the head room |
| SpeedSchedules.ServesIff | udp-file-proxy/Cudp.cpp:271-282 | for every max and base whose books balance and every n: no order of queries and returns of n threads divides by zero iff Serves(max, base, n) |
| SpeedSchedules.NobodyServed | udp-file-proxy/udp-file-proxy.cpp:122-127 | at 160 and 161 with base 80 no number of threads is served |
| SpeedSchedules.OneSenderIff | udp-file-proxy/Cudp.cpp:271-282 | one thread is always served iff its first grant is not 0, for any max and base |
| Speed.WaitBounds | udp-file-proxy/Cudp.cpp:280 | wait_t * queryed <= 8016 * pack_t < (wait_t + 1) * queryed |
| Speed.PacedBelowMax | udp-file-proxy/Cudp.cpp:271-303 | in every reachable state the rates 8016 * pack_t / (wait_t + 1) of all holders add up to less than max_speed |
| Speed.ConstructorsAreFair | udp-file-proxy/proxy_client.cpp:323-344 | the head room condition holds from 2 up for a constructor and from 322 up after set_speed on the default object, whose books balance from 159 up |
| SpeedSchedules.ArrivalsRun | udp-file-proxy/Cudp.cpp:271-282 | what is left after k senders queried one after the other |
| SpeedSchedules.TwelfthSenderCrashes | udp-file-proxy/Cudp.cpp:278-280 | by default the twelfth of twelve senders that query one after the other divides by zero |
| SpeedSchedules.LateSenderCrashes | udp-file-proxy/Cudp.cpp:278-280 | for any max and base, senders that query one after the other go on until one is granted 0, and that one divides by it |
| SpeedSchedules.DefaultServesEleven | udp-file-proxy/Cudp.cpp:271-282 | the default object serves n threads without a division by zero in every order of queries and returns iff n <= 11 |
| Speed.SmallSpeedLeaks | udp-file-proxy/udp-file-proxy.cpp:122-127 | for every max and base outside the condition two queries and two returns leave bandwidth booked that nobody holds |
| Speed.BalancedIff | udp-file-proxy/proxy_client.cpp:346-376 | for every max and base: in every run the total is the sum of the grants held and the clamp never fires iff 2 * base_speed <= max_speed + 1 (or max is 0, -1 or -2) |
| MessageQueue.Queue.Send | Sudp/Sudp.c:303-317 | a message is appended unless its type is below 1 |
| MessageQueue.Queue.TakeType | Sudp/thread_process.c:165 | the first message of the wanted type is taken, if there is one, and the rest keeps its order |
| MessageQueue.Queue.TakeHead | Sudp/thread_process.c:168 | type 0 takes the head |
| Sudp.PostedEncoded | Sudp/Sudp.c:292-307 | a sender's datagram posts one message of its packet number whatever the reused buffer held, and fits the msgbuf |
| Sudp.SocketLoop.OnDatagram | Sudp/Sudp.c:276-318 | each datagram appends exactly its message, unless it is longer than the 2040 bytes of the msgbuf, which it then overruns; the loss report is raised iff the number neither is 1 nor follows the previous one |
| FileProcess.Process.Restart | Sudp/thread_process.c:154-160 | the state after the label again |
| FileProcess.Process.OpenFile | Sudp/thread_process.c:183-228 | a new file is opened from the header in the buffer, dropping an unfinished one |
| FileProcess.SavedAs | Sudp/thread_process.c:210-211 | a file is saved in the application's directory under the last component of its name, whatever comes before it and however many slashes after it |
| FileProcess.SavedAsNothing | Sudp/thread_process.c:210-211 | the empty name is saved as "." and one of slashes only as "/" |
| FileProcess.Components | Sudp/thread_process.c:210-211 | every name is of one of these forms |
| FileProcess.SamePathIff | Sudp/thread_process.c:210-211 | two files get the same path iff their last components are equal |
| FileProcess.Process.WritePayload | Sudp/thread_process.c:231-240 | the payload is appended as read with the open file's name length |
| FileProcess.Process.CheckSize | Sudp/thread_process.c:243-266 | complete, incomplete or go on |
| FileProcess.Process.Handle | Sudp/thread_process.c:179-266 | one message has exactly the effect of the function Accept |
| FileProcess.Process.TryExpected | Sudp/thread_process.c:165 | the typed receive consumes the first message of the expected number or changes nothing |
| FileProcess.Process.TakeAny | Sudp/thread_process.c:167-177 | the fallback consumes the head of the queue |
| Transfer.WireOfStream | udp-file-proxy/Cudp.cpp:239-304 | the datagrams of all files are the texts of the message stream |
| Transfer.OpeningMessage | Sudp/thread_process.c:183-240 | a first message sets name length, packet total, path and content of its file |
| Transfer.FollowingMessage | Sudp/thread_process.c:231-240 | a later message of the open file appends its chunk |
| Transfer.InOrderMessage | Sudp/thread_process.c:179-266 | the expected packet moves the receiver one packet on, or reports the whole file and starts over |
| Transfer.HeadIsExpected | Sudp/thread_process.c:165-177 | over an in-order channel the head of the queue is the expected packet, so both receives take it |
| Transfer.StepInOrder | Sudp/Sudp.c:276-318 | arrivals and receives keep the queue the next contiguous run of the stream and the receiver at its start |
| Transfer.ReceiveTurns | Sudp/thread_process.c:163-177 | each turn asks for the expected number first and takes the head only when no such message is queued |
| Transfer.LosslessTransfer | Sudp/thread_process.c:154-268 | for any files and any interleaving the reported files are a prefix of those sent, with exact contents, and all of them once wire and queue are empty |
| Transfer.StepProgress | Sudp/thread_process.c:163-177 | every effective step lowers a bound on the steps left |
| Transfer.EveryFileArrives | Sudp/thread_process.c:154-268 | a run that goes on while it can ends, and then every file was reported |
| Lossy.KeptFile | Sudp/thread_process.c:240-266 | from a clean start a file is reported exactly when none of its packets was lost, whatever is lost |
| Lossy.StrayMessage | Sudp/thread_process.c:183-266 | a message other than a first packet counts for the open file, its payload read with that file's name length |
| Lossy.StrayPackets | Sudp/thread_process.c:183-266 | packets of another file complete an open one iff as many as it misses arrive before counting ends, and then which bytes its report holds |
| Lossy.FeedCounters | Sudp/thread_process.c:183-266 | the receiver's packet count and total after a file are the ones computed from the losses and packet counts alone |
| Lossy.FileOutcome | Sudp/thread_process.c:183-266 | per file and receiver state: the right report or none, or one wrong report with the stated content, under exactly the stated condition on counters and losses |
| Lossy.CountReports | Sudp/thread_process.c:183-266 | never fewer reports than intact files, exactly theirs when the losses are clean, and more otherwise |
| Lossy.ExactIffClean | Sudp/thread_process.c:183-266 | for every loss pattern the reports equal those of the intact files iff the losses are clean, a condition on losses and packet counts |
| Lossy.KeptUpRun | Sudp/thread_process.c:163-177 | a receiver that keeps up handles the delivered messages in order, by either receive |
| Lossy.LossyTransfer | Sudp/thread_process.c:154-268 | the same over all schedules of the pipeline with at most one queued message |
| Lossy.SeparatedIsClean | Sudp/thread_process.c:185-196 | if an unfinished file is always followed by a first packet, the losses are clean |
| Lossy.FirstPacketsSeparate | Sudp/thread_process.c:185-196 | losing no packet 1 is enough for that |
| Lossy.FirstPacketsSuffice | Sudp/thread_process.c:154-268 | over all schedules with at most one queued message: if no packet 1 is lost, exactly the intact files are reported, byte for byte |
| Backlog.ExpectedInBlock | Sudp/thread_process.c:165 | in any permutation of a file's remaining packets the typed receive finds the expected one |
| Backlog.TakeBacklogged | Sudp/thread_process.c:165-182 | one typed receive moves a permuted backlog one packet on |
| Backlog.BacklogRestoresOrder | Sudp/thread_process.c:154-254 | with every file queued in any order of its packets, as many receives as packets report all files byte for byte in order, whatever arrives meanwhile |
| Breakage.TypedReceiveSteals | Sudp/thread_process.c:165 | with a's last packet lost and b queued, the typed receive puts packet 3 of b into a and reports a |
| Breakage.LostBoundary | Sudp/thread_process.c:183-254 | with a's last and b's first packet lost, a is reported with packet 2 of b inside, even by a receiver that keeps up |
| Breakage.LostBoundaryConcrete | Sudp/thread_process.c:183-254 | two concrete files for which the reported content is not what was sent |
| PoolProtocol.AddAnswers | Sudp/threadpool.c:79-112 | with the mutex add_job is refused iff a close flag is set, waits iff the pool is open and full, and else appends exactly its job |
| PoolProtocol.CallersGoOn | Sudp/threadpool.c:77-82 | until the free a caller that is not blocked on a full queue can go on |
| PoolProtocol.StepAccounted | Sudp/threadpool.c:97-111 | every step keeps accepted = dequeued + queued in order, and dequeued = ran + running |
| PoolProtocol.StepStages | Sudp/threadpool.c:122-158 | every step keeps the two-stage shutdown: pool_close only with an empty queue, workers exit only then |
| PoolProtocol.StepNoLostWakeup | Sudp/threadpool.c:79-113 | every step keeps: a sleeper on any of the three conditions has nothing to do, or its wakeup is still to come |
| PoolProtocol.StepInv | Sudp/threadpool.c:161-203 | the invariant is kept by every step of every thread, spurious wakeups included |
| PoolShutdown.InitInv | Sudp/threadpool.c:8-68 | it holds initially for any number of threads and a capacity of at least 1 |
| PoolShutdown.QueuedJobsAreServed | Sudp/threadpool.c:167-196 | in every reachable state: while a job is queued every worker is runnable, a blocked caller means a full queue, a waiting destroyer a non-empty one |
| PoolShutdown.ExactlyOnce | Sudp/threadpool.c:97-111 | in every reachable state FIFO order and exactly-once hold, and when destroy is done every accepted job has run once and its free loop has nothing to free |
| PoolShutdown.OpenPoolAccepts | Sudp/threadpool.c:71-113 | on a pool that was never closed, the jobs asked for are those accepted and those still inside add_job: every call that has left had its job accepted |
| PoolShutdown.ClosedQueueShrinks | Sudp/threadpool.c:83-87 | after queue_close nothing is accepted and the count never rises |
| PoolShutdown.NeverStuck | Sudp/threadpool.c:127-143 | during a shutdown some worker or the destroyer can always go on without a spurious wakeup |
| PoolShutdown.StepMeasure | Sudp/threadpool.c:127-143 | each such step lowers a bound, a spurious wakeup raises it by at most one |
| PoolShutdown.ShutdownIsBounded | Sudp/threadpool.c:117-158 | after queue_close any schedule makes a bounded number of productive steps |
| PoolShutdown.ShutdownCompletes | Sudp/threadpool.c:117-158 | and stops only when destroy has finished, all accepted jobs ran once and all workers exited |
| PoolShutdown.CallersLeave | Sudp/threadpool.c:71-87 | once the queue is closed a call of add_job that had begun has left exactly when it got the mutex, for the first time or again |
| PoolShutdown.CanFinish | Sudp/threadpool.c:117-158 | from every state of a shutdown workers and destroyer alone can finish it |
| PoolShutdown.FreeIsSafeIff | Sudp/threadpool.c:117-158 | if no call of add_job begins after the close, no schedule frees the pool under one iff none had begun and not returned at the close |
| PoolShutdown.LateCallIsUnsafe | Sudp/threadpool.c:71-87 | with a thread that may still call add_job, some schedule frees the pool under a call begun after the close |
| PoolShutdown.CallerWaitsAtDestroy | Sudp/threadpool.c:79-82 | a reachable state in which a call was blocked at the close |
| PoolShutdown.CallerOvertakenByDestroy | Sudp/threadpool.c:71-77 | one in which a call had not locked the mutex yet |
| ThreadPool.Queue.Add | Sudp/threadpool.c:79-112 | refused, waiting or added by the flags and the count before the call; when added exactly its job is last in the chain, and queue_not_empty is broadcast iff it was empty; it is the machine's step |
| ThreadPool.Queue.Take | Sudp/threadpool.c:168-196 | a worker idles, leaves or takes the first job by the flags and the count, with the signal iff the queue became empty and the broadcast iff it was full; it is the machine's step |
| ThreadPool.Queue.BeginDestroy | Sudp/threadpool.c:120-133 | a second destroy is refused, a first one closes the queue and waits or closes the pool |
| ThreadPool.Queue.ContinueDestroy | Sudp/threadpool.c:128-133 | the same after each wakeup |
| ThreadPool.Queue.FreeRest | Sudp/threadpool.c:150-156 | the free loop takes one turn per queued job |
| SendList.AppendAnswers | udp-file-proxy/proxy_client.cpp:446-484 | a file is accepted iff there is room, and then it is last |
| SendList.GetNextAnswers | udp-file-proxy/proxy_client.cpp:486-513 | the oldest file is handed out iff there is one |
| SendList.SendList.AppendFile | udp-file-proxy/proxy_client.cpp:446-484 | E_OK iff list_count was below max_count, and then the file is last; the per chain stays well formed and stat tells whether it is empty |
| SendList.SendList.SetMax | udp-file-proxy/proxy_client.cpp:135 | the registration command sets the capacity of an empty list and nothing else |
| SendList.SendList.TakeNext | udp-file-proxy/proxy_client.cpp:486-513 | the oldest entry is taken, NULL exactly when there is none; nothing relies on the dangling next |
| FileThread.StepInv | udp-file-proxy/Cudp.cpp:420-438 | appends between the consumer's calls keep a list seen busy non-empty |
| FileThread.EveryFileInOrder | udp-file-proxy/Cudp.cpp:418-489 | in every interleaving from an empty list accepted files are taken in order, each once, whether the earlier ones were sent, failed or were skipped, and data->filename is never read through NULL |
| FileThread.RefusedOnlyWhenFull | udp-file-proxy/proxy_client.cpp:449 | in every interleaving a file is refused iff as many accepted files as the list has places were not taken yet |
| FileThread.QueueDrains | udp-file-proxy/Cudp.cpp:418-489 | four moves of the consumer per file handle everything queued in order, with any fates of the files |
| Registry.ProxyClient.AddApp | udp-file-proxy/proxy_client.cpp:174-215 | E_EXIST iff the name is present, else the record is appended; names stay unique and the chain acyclic |
| Registry.ProxyClient.WalkToEnd | udp-file-proxy/proxy_client.cpp:187-203 | the walk meets a record of the name iff there is one, else it ends at the last record |
| Registry.ProxyClient.Unlink | udp-file-proxy/proxy_client.cpp:233-246 | exactly one record leaves the chain and the others keep their order |
| Registry.ProxyClient.DelApp | udp-file-proxy/proxy_client.cpp:217-261 | E_NOTFOUND iff the name is absent, else exactly its record is removed, and its stat is S_CANCEL for the two deferred options and unchanged otherwise |
| Registry.ProxyClient.Lookup | udp-file-proxy/proxy_client.cpp:267-281 | the record of the name, or none |
| Registry.ProxyClient.AddSendFile | udp-file-proxy/proxy_client.cpp:264-315 | the file is appended to the named application's list and every other list is unchanged |
| Config.Trim | udp-file-proxy/config.cpp:29-55 | the text without the spaces and tabs at its ends |
| Config.AnalyseLine | udp-file-proxy/config.cpp:57-82 | the result of the code as written, including its substr lengths |
| Config.ReadAsIntendedIff | udp-file-proxy/config.cpp:57-82 | a line is read as the comments describe if and only if it is of neither misread kind |
| Config.AnalysePair | udp-file-proxy/config.cpp:57-82 | key = value, with or without a comment behind, gives both sides trimmed, except that less than three characters or a blank key are rejected |
| Config.AnalyseNoPair | udp-file-proxy/config.cpp:57-82 | a line without a pair is rejected, and what a pair inside its comment gives instead |
| Config.PiecesJoin | udp-file-proxy/config.cpp:85-103 | cutting at the separators loses nothing and leaves none inside a piece |
| Config.SplitIsUnique | udp-file-proxy/config.cpp:85-103 | there is only one such list of pieces |
| Config.Split | udp-file-proxy/config.cpp:85-103 | the loop ends with exactly those pieces, one more than separators |
| Config.CONF.CONF_prase_line | udp-file-proxy/config.cpp:198-218 | the section becomes the map of the pieces, later keys overwriting |
| Config.LastValueWins | udp-file-proxy/config.cpp:203-213 | a key is present iff some piece has it, with the value of the last such piece |
| Config.AnalysePrinted | udp-file-proxy/config.cpp:57-82 | a printed pair is read back, except the two characters "k=" |
| Config.SectionOfPrinted | udp-file-proxy/config.cpp:203-213 | distinct printed keys end up with their values and nothing else does |
| Config.ParserInvertsPrinter | udp-file-proxy/config.cpp:198-255 | reading back any printed list of pairs gives every key its value, "k=" included, and no other key |
| Config.ReadBack | udp-file-proxy/config.cpp:198-255 | the same through the object and its getter |
| FileHelper.WriteAt | Sudp/file_helper.c:63 | a write at the file offset changes those bytes, extending the file if needed |
| FileHelper.WriteOutEnds | Sudp/file_helper.c:62-87 | a chunk is written in full iff no write of it failed or returned 0, and else as far as its writes went |
| FileHelper.CopyingEnds | Sudp/file_helper.c:51-88 | the result is -1 iff a call that was made failed; a zero write is met iff a write that was made returned 0 |
| FileHelper.StopsAtFailure | Sudp/file_helper.c:54-87 | a copy that fails has made exactly one failing call |
| FileHelper.CopyingBytes | Sudp/file_helper.c:51-88 | without a zero write a prefix of the source is written, all of it on success; with one, bytes are missing |
| FileHelper.ExactIffNoZeroWrite | Sudp/file_helper.c:51-92 | for every schedule a copy that does not fail is exact iff no write it made returned 0 |
| FileHelper.WriteChunk | Sudp/file_helper.c:62-80 | the inner loop writes and returns what its specification over the write schedule says |
| FileHelper.CopyLoop | Sudp/file_helper.c:51-88 | the outer loop returns and leaves on disk what its specification over both schedules says, even when a file is copied onto itself |
| FileHelper.Copy | Sudp/file_helper.c:30-92 | the result and all files after a call, for every schedule; without a failing call it returns 0, and 0 without a zero write means the destination is the source followed by old bytes past its length |
| FileHelper.Move | Sudp/file_helper.c:12-26 | the result and all files after a call: on success the source is gone iff rename or unlink succeeded, a rename leaves exactly the source at the destination and a copy without a zero write the source and left-over bytes; with no zero write in the schedule the content survives every move to another name |
| FileHelper.MoveKeepsContent | Sudp/file_helper.c:12-26 | the content survives a move to another name unless the source is removed after a zero write; then it is gone if the destination was shorter, and else exactly unless written and left-over bytes make up the source; copied onto itself and removed it is gone |
| FileHelper.MoveResult | Sudp/file_helper.c:12-26 | no third file is touched, a failure leaves the source as it was, a success removes it iff rename or unlink succeeded |

## Left out

- Sockets, libevent, processes, signals, logging, timers, real time: only the wait_t arithmetic is kept.
- Faults of malloc, fopen, fwrite and thread creation on the receiving side end the process in the source and are not modelled.
- FileProcess.Process.Handle: a length field that points outside the receive buffer makes the source read past it; the model clips the read.
- FileProcess.Process.Handle: the shared save_path handed to Recv_Finish by pointer is not modelled; a completion is recorded when the job is queued, and two files with the same base name are two completions though they share a path.
- FileProcess.Process.CheckSize: threadpool_add_job is taken to succeed, as the receiving process never destroys its pool.
- Transfer.LosslessTransfer: arbitrary reordering without a backlog, and duplicates, are outside every theorem, because the source appends by arrival.
- FileThread.EveryFileInOrder: why a file is skipped or its transfer fails is left open; any fate may occur at any file.
- Segmentation.SegmentationIsExact: reads of a regular file are taken to be full, and the file not to change while it is sent.
- Cudp.SendPackEx: the grant it gets is computed without other threads in between; what concurrent senders get is the machine in Speed.
- SpeedSchedules.ServesIff: speeds whose books do not balance (below 159 on the default object) are covered for one thread only (OneSenderIff); for more, what leaks changes later grants, and only LateSenderCrashes applies. set_speed while grants are held and a sender cancelled with its grant are not modelled.
- Speed.BalancedIff: a negative base_speed, which only a negative speed given to the constructor leads to, is not covered.
- PoolShutdown.ShutdownCompletes: one destroyer; what a thread does that is in add_job when the pool is freed, or calls it later, is undefined in the source and not modelled beyond FreeIsSafeIff and LateCallIsUnsafe saying when there is one.
- Sudp.SocketLoop.OnDatagram: what the source does after it overran its msgbuf is undefined and not modelled.
- Registry.ProxyClient.AddApp: the thread started for a new application is taken to start; the record handed in is a new one.
- Registry.ProxyClient.DelApp: the cancellation of the thread for DEL_NOW is not modelled; S_CANCEL is stored where file_thread does not look.
- SendList.SendList.TakeNext: freeing the taken entry is not modelled.
- Config.Split: patterns of more than one character, and the empty one, for which the loop does not end, are not modelled; every caller passes ",".
- Config.CONF.CONF_prase_line: the variant that reads a C string stops at its first zero byte; reading from a file, CONF_get_number and CONF_get_bool are not modelled.
- FileHelper.Move: mode bits, directories and hard links are not modelled.
- Commands on the management socket, the server side that starts Sudp, browsedir and mhp_lib would add only easy members.

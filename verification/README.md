# Verification model of the UART daemon

The daemon reads bytes from a UART and a named pipe, hands the reading to a thread pool, moves messages through
two linked queues and writes responses back in order. This project models its hard parts in Dafny and proves
what they promise, for every input, every run and every interleaving. `dafny verify dfyconfig.toml` checks it.

## How the program is modelled

- **Thread pool** (`PoolMonitor.dfy`, `PoolProofs.dfy`, `PoolTheorems.dfy`, `PoolCalls.dfy`, `ThreadPool.dfy`).
  Each critical section is a pure function on the guarded fields (`PoolSections`), covering one pass from obtaining the mutex
  to giving it up, by unlocking or by going to sleep. `ThreadPoolObject` is the pool as a class with its linked
  job list; its methods are proved to compute those functions. `PoolMonitor` interleaves them: any number of
  workers, producers and destroyers, wait sets as thread states, spurious wakeups, a signal that wakes at least
  one sleeper, and the destroyer's calls outside the mutex as separate steps. Since the mutex is held through a
  section, a section is one atomic step. Worker count and capacity are arbitrary, zero and negative capacities
  included.
- **UART reader** (`UartReader.dfy`, `ChunkedRead.dfy`). The event loop and the reading jobs run on that same pool
  machine, with the epoll registration as a boolean and reads as arbitrary sequences of chunks.
- **Linked queue** (`LinkedQueue.dfy`, `ListSession.dfy`). The sentinel list with the self-linked tail as a heap
  class, with a ghost count of frees in each node and a ghost record of every node ever inserted. A node is freed
  only while live and exactly once over the life of the list, and every link is followed through `Next`, which
  demands a live node. `ListSession` is the interactive program over one list, any sequence of insertions and pops.
- **Pipeline** (`Pipeline.dfy`, `PipelineTheorems.dfy`, `PipelineProgress.dfy`, `Dispatch.dfy`, `Daemon.dfy`).
  Receivers, parser, sender and other producers as a state machine, with the unlocked emptiness test, the locked pop, the single test
  before each wait and the unprotected signals as separate steps. `Dispatch` holds the handler tables, the
  handlers and the dispatch of one message on the heap list. `Daemon` runs the UART reader and the pipeline
  together: what a reading job stores is what enters the receive list. Its runs project to runs of either machine.
- **Byte ring, frames, clock message, line search** (`ByteFifo.dfy`, `DuerFrames.dfy`, `TimeMessage.dfy`,
  `LineSearch.dfy`). Imperative methods over arrays, each tied to a specification; decoders are independent
  readers and the round trips are lemmas. `Basics.dfy` and `Text.dfy` hold what the modules share.

Assumptions on the environment, which the source makes too: every `pthread_create` succeeds; nobody calls into
the pool from the destruction of its mutex on; queue lengths and line counts fit an `int`, which is 32 bits wide
and little-endian; no protocol name in a handler table is longer than the parser's node; other producers of the
send list queue between 1 and 1024 bytes, the size of the sender's node; a file does not change while it is
searched. A failed allocation is a parameter wherever the source tests for it, and so is what `vsprintf` prints.

## Where the source falls short of its intent

- The producers' broadcast in `threadpool_destroy` wakes somebody only in a pool of capacity zero
  (`ProducerBroadcastNeededIff`).
- A pool without workers never finishes closing over a queued job (`WorkerlessNeverCloses`), and a run reaches that
  state (`WorkerlessDestroyerSleeps`).
- `epoll_start` ignores a refused reading job. The UART is then never watched again (`RefusalSilencesUart`), and
  a history reaches that state (`RefusalHappens`).
- Both consumers of the pipeline can sleep on a non-empty list with no signal to come; `StrandedIff` says
  exactly when, and `WakeupCanBeLost` and `SenderWakeupCanBeLost` give a run for each.
- In a fifo longer than INT_MAX the put cursor overflows once INT_MAX bytes have been put (`NextPutOverflowsIff`),
  and a single put gets there (`LongRingFills`).
- `whole_read` loses the read that reaches its limit: `NothingLostIff` is exact, `FirstReadLost` gives an input.
- An argument containing a delimiter or a newline breaks a string frame, and so does one whose print does not begin
  with the argument, as with `%%`; `TextsRoundTripIff` and `PrintedRoundTripIff` are exact.
- Lines of 512 bytes and more break `compare_FileAndUrl`; `SearchIsExactIff` is exact.
- Destroying an empty list leaves its sentinel allocated (`Destroy`).

## Model

| member | source | states |
|---|---|---|
| ThreadPoolObject.ThreadPool.constructor | src/thread_pool.c:15-47 | a new pool has an empty open queue |
| ThreadPoolObject.ThreadPool.AddJob | src/thread_pool.c:66-97 | one pass of an add: it waits exactly on a full open queue, is refused exactly when closed or, with room, without memory, and otherwise appends the job to the linked list, broadcasting exactly when the list was empty; the chain from head to tail stays a duplicate-free list of live nodes as long as the count |
| ThreadPoolObject.ThreadPool.TakeJob | src/thread_pool.c:106-134 | one pass of a worker: it exits exactly on a closed pool, waits exactly on an empty open one, else unlinks the first node, which is then its own and out of the list; it signals exactly on the last job and broadcasts exactly on max to max-1 |
| ThreadPoolObject.ThreadPool.Destroy | src/thread_pool.c:144-158 | first pass of a destroyer: refused if closed, else closes the queue and waits for it to empty or closes the pool |
| ThreadPoolObject.ThreadPool.Drain | src/thread_pool.c:152-158 | the destroyer resumed from its wait |
| ThreadPoolObject.ThreadPool.FreeRemaining | src/thread_pool.c:172-178 | the final loop frees every node left in the list once, and follows the link of live nodes only |
| PoolInvariant.StepKeepsInv | src/thread_pool.c:60-181 | every step of every thread keeps the pool invariant: sleepers, close protocol, shutdown order, queue contents, ticket ownership, return codes |
| PoolInvariant.RunSatisfiesInv | src/thread_pool.c:60-181 | the invariant holds in every state of every run |
| PoolWakeups.NoLostWakeups | src/thread_pool.c:67-70 | in every reachable state a non-empty queue has no sleeping worker, a sleeping producer faces a full queue, a sleeping worker would sleep again unless the destroyer is about to broadcast, and at most one destroyer sleeps, with the queue closed and not empty |
| PoolWakeups.EveryChangeNotifies | src/thread_pool.c:85-133 | an accepted job leaves no worker asleep, a taken job no producer, the last taken job no destroyer, although the code notifies only on the boundary transitions |
| PoolWakeups.ZeroCapacityLeavesProducer | src/thread_pool.c:151-160 | a run with capacity zero that brings the closing destroyer to its broadcast at line 160 while a producer is asleep |
| PoolWakeups.ProducerBroadcastNeededIff | src/thread_pool.c:160 | some run brings a destroyer to the producers' broadcast with a producer asleep if and only if the capacity is zero |
| PoolWakeups.NoAddSleepsAfterClose | src/thread_pool.c:67-74 | once the closing destroyer is past its broadcasts no producer is asleep, and an add call that gets the mutex is refused at once and changes nothing |
| PoolCalls.AddStep | src/thread_pool.c:66-97 | an add sleeps exactly on a full open queue, returns -1 exactly when closed or, with room, without memory, and else 0 with the job at the end of the queue; workers are woken exactly if the queue was empty |
| PoolCalls.WorkerStep | src/thread_pool.c:106-134 | a worker exits, sleeps or takes the first job by the flag and the queue alone; producers are woken exactly from a full queue, a destroyer exactly by the last job |
| PoolCalls.DestroyStep | src/thread_pool.c:144-158 | a destroyer is turned away exactly from a closed pool, sleeps exactly on a non-empty queue, and else closes the pool |
| PoolCalls.NobodyIsBlocked | src/thread_pool.c:60-181 | every thread has a step to take but for its sleep, a worker still to be joined or a caller still inside |
| PoolCalls.CallsAreAnswered | src/thread_pool.c:60-98 | over any run every add call of a thread is answered once and in order, with its own job, except the call it is still in |
| PoolCalls.ReturnIsExact | src/thread_pool.c:71-97 | over any run each answer comes from one pass over an open queue with room or a closed pool, is -1 exactly when closed or without memory, and 0 exactly when the job is accepted behind the earlier ones |
| PoolCalls.FirstDestroyerWins | src/thread_pool.c:144-151 | over any run a destroy call is turned away if and only if another got the mutex before |
| PoolExactlyOnce.HistoriesGrow | src/thread_pool.c:76-138 | what was accepted, taken, finished and returned is never revised later in the run |
| PoolExactlyOnce.TakesFollowAcceptance | src/thread_pool.c:116-125 | a take hands its worker the oldest accepted job nobody has had |
| PoolExactlyOnce.EachTicketTakenOnce | src/thread_pool.c:111-134 | every job handed out is handed out by exactly one step, to one worker |
| PoolExactlyOnce.NeverExecutedTwice | src/thread_pool.c:136-138 | no job runs at two workers, or again after it finished |
| PoolExactlyOnce.ShutdownRanEverything | src/thread_pool.c:161-178 | past the joins the queue is empty, all workers have exited, and exactly the jobs whose add returned 0 have each finished exactly once |
| PoolExactlyOnce.NothingFollowsReclaim | src/thread_pool.c:167-180 | after the pool is freed no thread has a step left in it |
| PoolShutdown.StepAgainstMeasure | src/thread_pool.c:104-166 | after the close each step of a worker or the closing destroyer lowers a measure, whatever producers and late destroyers do, and a spurious wakeup raises it by at most one |
| PoolShutdown.ShutdownIsBounded | src/thread_pool.c:151-165 | over any run from the close on, the pool's steps are at most the measure plus the spurious wakeups |
| PoolShutdown.StuckIff | src/thread_pool.c:106-165 | during shutdown no step is possible if and only if the destroyer is past its joins, or there are no workers and it waits for a non-empty queue |
| PoolShutdown.WorkerlessNeverCloses | src/thread_pool.c:151-155 | in a pool without workers a queued job stays queued and the pool is not closed in any later state |
| PoolShutdown.WorkerlessDestroyerSleeps | src/thread_pool.c:151-155 | a run in which the destroyer of a pool without workers goes to sleep over a queued job |
| PoolAvailability.WorkersStayAvailable | src/thread_pool.c:104-139 | with k jobs that never return and a non-empty queue, at least n - k workers are neither asleep, exited nor occupied by those jobs, and each ready one takes a job |
| ChunkedRead.LongestFitIsLongest | src/uart_start.c:162-175 | a chunk prefix fits the limit exactly if it is no longer than the kept one |
| ChunkedRead.WholeRead | src/uart_start.c:156-178 | the buffer holds exactly the concatenation of the longest fitting chunk prefix, the rest is untouched, the result is below the limit, and reading stops one call after the kept prefix |
| ChunkedRead.ConcatHolds | src/uart_start.c:169-170 | every kept chunk stands whole in the buffer, behind the earlier and before the later ones |
| ChunkedRead.NothingLostIff | src/uart_start.c:164-168 | the bytes consumed are the bytes kept if and only if they are none or fewer than the limit |
| ChunkedRead.FirstReadLost | src/uart_start.c:166-167 | a first read of at least the limit is consumed and nothing is kept |
| UartReader.ActionKeepsInv | src/uart_start.c:359-383 | every action of event loop, readers and pool keeps: one token, submissions by the loop only, reads and insertions on record |
| UartReader.TokenConserved | src/uart_start.c:459-464 | the right to read the UART exists exactly once until an add call returns -1 for a reading job, and not at all afterwards |
| UartReader.ReadersNeverOverlap | src/uart_start.c:359-368 | two UART reads never overlap, and during one the UART is not in epoll and no other reading job is pending |
| UartReader.RefusalSilencesUart | src/uart_start.c:463-464 | after a refused reading job the UART is neither watched nor read in any later state |
| UartReader.RefusalHappens | src/uart_start.c:459-464 | a history in which the pool refuses a reading job |
| UartReader.EachReadInsertedOnce | src/uart_start.c:370-381 | a finished reading job has inserted what it kept of the chunks it read exactly once if non-empty and a node was available, else never; the message has fewer than 1024 bytes |
| UartReader.GotWasRead | src/uart_start.c:363 | what a job is known to have kept is the longest prefix of whole chunks below 1024 bytes of one read of its own in the past |
| UartReader.SettledByAllocation | src/uart_start.c:370-379 | a message is dropped exactly if it is non-empty and its job could not allocate the node |
| UartReader.ReaderCanGoOn | src/uart_start.c:359-383 | a reading job always has its next step: to read, to store, to end |
| UartReader.LoopCanGoOn | src/uart_start.c:459-464 | the loop takes up a watched UART, unregisters it and enters the add call with the reading job |
| LinkedQueue.InitNode | src/linklist.c:44-79 | a new node is zeroed and of the requested size, or none without memory for all of its parts |
| LinkedQueue.InitList | src/linklist.c:161-186 | a new list is a self-linked sentinel, or none without memory or mutex |
| LinkedQueue.List.IsEmpty | src/linklist.c:3-10 | empty exactly if the abstract sequence is |
| LinkedQueue.List.InsertNode | src/linklist.c:109-113 | appends the node's message; chain, tail self-link, count and distinctness are kept |
| LinkedQueue.List.UnlinkFirst | src/linklist.c:33-41 | removes and frees the first element, repairing the sentinel when it was the only one |
| LinkedQueue.List.PopFirst | src/linklist.c:27-41 | the locked pop: first message into the caller's node, rest of the sequence kept, node freed |
| LinkedQueue.List.PopNode | src/linklist.c:12-42 | pops the first message, the other nodes and buffers staying, into a node the caller keeps and can use again; changes nothing at all without node, message or buffer |
| LinkedQueue.List.Destroy | src/linklist.c:142-154 | every node ever inserted has then been freed exactly once, popped ones included, and no link of a freed node is followed; the sentinel is freed if and only if the list was not empty |
| LinkedQueue.List.AddData | src/linklist.c:188-200 | appends a copy of the message without its target, in a node and a buffer of its own; without a node nothing changes |
| LinkedQueue.List.ReadySendData | src/uart_start.c:189-205 | appends a copy of the bytes with the target, in a node and a buffer of its own; without length or data nothing changes |
| LinkedQueue.SendFirst | src/uart_start.c:219-240 | a pass of the sender over a non-empty list requests its first message and leaves the node zeroed and reusable |
| LinkedQueue.SendUntilEmpty | src/uart_start.c:212-241 | with nobody inserting, the sender requests all messages in order through its one node, and every node ever inserted has then been freed exactly once |
| ListSession.SessionConserves | src/linklist.c:207-231 | over any sequence of insertions and pops the messages inserted are those popped followed by those still queued |
| ListSession.CommandMeans | src/linklist.c:216-229 | a pop moves exactly the oldest message if there is one, a text joins the queue at its end, quit ends the session |
| ListSession.CommandsAreWords | src/linklist.c:216-223 | the commands are exactly the lines that begin with "pop" and "quit" |
| ListSession.Session | src/linklist.c:202-231 | the heap list refines that queue over any sequence of lines, and each node ever inserted has been freed exactly once if it was popped or the list destroyed, else never |
| PipelineInvariant.StepKeepsInv | src/uart_start.c:207-317 | every step of receivers, parser, sender and other producers keeps the pipeline invariant |
| PipelineTheorems.PopsAreSafeAndInOrder | src/linklist.c:18-31 | a non-empty test made outside the list mutex still holds inside, the message fits the node, and both lists are popped in insertion order |
| PipelineProgress.ListsHoldWhatCame | src/uart_start.c:189-205 | over any run the receive list got exactly the messages received, and the send list, but for the parser's, exactly those queued, in order |
| PipelineProgress.ParserPass | src/uart_start.c:300-315 | each pass of the parser over a non-empty list takes exactly its first message, whatever the other threads do, and over an empty one nothing |
| PipelineProgress.SenderPass | src/uart_start.c:213-241 | each pass of the sender makes one request, of exactly the first message of a non-empty list, of zero bytes over an empty one |
| PipelineProgress.ParserIsBounded | src/uart_start.c:298-315 | over any run the parser takes at most its measure of steps plus a constant for each message received and each wakeup |
| PipelineProgress.ParserCanGoOn | src/uart_start.c:298-315 | the parser has a step to take everywhere but asleep |
| PipelineProgress.ParserDrains | src/uart_start.c:300-308 | without further messages a parser asleep has popped everything ever inserted |
| PipelineProgress.SenderIsBounded | src/uart_start.c:212-241 | the sender takes at most five steps for each message queued and six for each wakeup |
| PipelineProgress.SenderCanGoOn | src/uart_start.c:212-241 | the sender has a step to take everywhere but asleep |
| PipelineProgress.SenderDrains | src/uart_start.c:212-241 | without further messages a sender asleep has requested everything ever queued, in order |
| PipelineProgress.TestDecidesWait | src/uart_start.c:214-240 | a consumer turns to its wait exactly on an empty list, and the sender's node is cleared after each request |
| PipelineProgress.ProducersCanGoOn | src/uart_start.c:189-205 | a message can come in at any time exactly if it has 1 to 1024 bytes |
| PipelineProgress.ShippedRepliesAreExact | src/uart_protocol.c:135-170 | with the tables of the source, between two messages the parser has queued exactly one reply for each UART message beginning with "time", readable back to the clock, and each pipe message beginning with "usb", the fixed text, in order and for the UART |
| PipelineProgress.ReadingsAreTaken | src/uart_protocol.c:136-144 | the readings told in the replies are those taken by the handlers as they ran, one each |
| PipelineProgress.AnsweringIsFired | src/uart_start.c:259-277 | the pipeline's answers to a message are those of the dispatch over the heap list |
| PipelineTheorems.RepliesAreExact | src/uart_start.c:246-315 | the parser's insertions into the send list are the replies, message by message and in table order, of exactly the handlers whose name begins the message |
| PipelineTheorems.RequestsFollowQueue | src/uart_start.c:212-241 | apart from empty requests the sender's requests are the queued messages in order, each once, and the UART writes a prefix of the UART messages queued |
| PipelineTheorems.EndToEnd | src/uart_start.c:207-315 | whoever queues messages, what is sent is the front of the send list, and its part from the parser is a prefix of the replies to what was received; with no other producer that is all of it |
| PipelineTheorems.EarlyWakeupsAreHarmless | src/uart_start.c:214-240 | no handler runs without a popped message that begins with its name, and a send without a popped message is for zero bytes |
| PipelineTheorems.DrainedBeforeWaiting | src/uart_start.c:300-309 | a consumer turns to its wait only when everything inserted so far has been popped |
| PipelineTheorems.StrandedIff | src/uart_start.c:213-217 | a consumer asleep with no signal to come faces a non-empty list if and only if an earlier step of the run signalled it between its test and its wait with a message in the list, and it has been waiting ever since |
| PipelineTheorems.WakeupCanBeLost | src/uart_start.c:300-305 | a run that leaves the parser asleep on a received message |
| PipelineTheorems.SenderWakeupCanBeLost | src/uart_start.c:213-217 | a run that leaves the sender asleep on a queued message |
| Daemon.UartPartIsHistory | src/uart_start.c:359-383 | a run of the daemon, seen from the UART reader, is one of its histories, so that the reader's theorems hold of the daemon |
| Daemon.PipePartIsRun | src/uart_start.c:207-383 | a run of the daemon, seen from the pipeline, is one of its runs, with the insertions of reading jobs as messages received |
| Daemon.UartMessagesAreReads | src/uart_start.c:359-383 | the UART messages in the receive list are, in order and each job at most once, what the reading jobs kept of the chunks they read; those popped are a prefix |
| Daemon.ReadsAreReceived | src/uart_start.c:359-383 | what a finished reading job kept of the chunks it read is in the receive list, unless empty or without a node |
| Daemon.ReadsAreAnswered | src/uart_start.c:207-383 | whoever else queues messages, the parser's part of what is sent is a prefix of the replies to the received messages, whose UART part is what the reading jobs stored |
| Dispatch.MatchesIsPrefix | src/uart_start.c:261 | in a zeroed node the name comparison is a prefix test on the message |
| Dispatch.FiredAreMatches | src/uart_start.c:260-278 | the handlers run are those of exactly the matching entries, each once, in table order |
| Dispatch.ReplyMeans | src/uart_protocol.c:146-158 | a clock reply is for the UART, begins with `AXX+TIM+` and reads back to the clock; the other reply is the text `AXX+USB+OUL&` for the UART |
| Dispatch.DataParse | src/uart_start.c:246-293 | dispatch of one message on the heap list: replies of the matching entries in order, and exactly their counters go up, modulo the word size |
| Dispatch.RunTable | src/uart_start.c:259-267 | one table: replies and counters of exactly the matching entries |
| Dispatch.ProcessAtTimeCmd | src/uart_protocol.c:135-148 | the whole clock text is queued for the UART, readable back to the clock |
| Dispatch.PipeUsboulHandler | src/uart_protocol.c:154-158 | the bytes of `AXX+USB+OUL&` are queued for the UART |
| Dispatch.ShippedTablesAreNamed | src/uart_protocol.c:162-170 | the tables of the source meet what the pipeline asks of handler names |
| TimeMessage.TimeRoundTrip | src/uart_protocol.c:138-146 | a reader recovers every calendar field, for any year from 0 to the largest int and whatever follows |
| TimeMessage.TextLength | src/uart_protocol.c:135-146 | the text has 24 bytes exactly up to the year 9999 and always fits the 64-byte buffer |
| TimeMessage.ClockBytes | src/uart_protocol.c:146 | the text character by character: header, two digits for each field in the order of the format, the year right-aligned in four columns |
| ByteFifo.Fifo.constructor | src/data_fifo.c:170-181 | a new fifo of any unsigned length is empty |
| ByteFifo.Fifo.LongRingCursors | src/data_fifo.c:114-131 | in a fifo longer than INT_MAX the cursors are the numbers of bytes ever put and popped |
| ByteFifo.Fifo.NextPutOverflowsIff | src/data_fifo.c:131 | the increment of the put cursor overflows if and only if the fifo is longer than INT_MAX and INT_MAX bytes have been put |
| ByteFifo.LongRingFills | src/data_fifo.c:122-137 | one put brings a fifo of INT_MAX + 1 bytes to that point, with room left |
| ByteFifo.Fifo.HeadFollowsTail | src/data_fifo.c:114-133 | head is tail plus fill level modulo the size |
| ByteFifo.Fifo.Put | src/data_fifo.c:122-137 | stores exactly the front of any data that fits, byte for byte behind the contents, short of the overflow of the cursor |
| ByteFifo.Fifo.Pop | src/data_fifo.c:104-120 | delivers exactly the oldest bytes available up to any limit, as the bounded stream does, and leaves the rest of the buffer alone |
| ByteFifo.NothingLost | src/data_fifo.c:104-137 | over any sequence of calls, all bytes accepted are all bytes delivered followed by the contents |
| ByteFifo.StreamIsExact | src/data_fifo.c:104-137 | over any sequence of calls, what is accepted is, put by put, the front of the data as far as there was room; all of it but the last bytes, as many as the level, has been delivered in order |
| ByteFifo.IsFull | src/data_fifo.c:139-153 | 1 exactly if there is no room, -1 without a fifo |
| ByteFifo.IsEmpty | src/data_fifo.c:155-168 | 1 exactly if there is nothing to pop, -1 without a fifo |
| ByteFifo.InitDataFifo | src/data_fifo.c:170-181 | an empty fifo of the given size, or -1 without memory |
| DuerFrames.FormatDuerButtonData | src/dueros_handle.c:20-61 | the frame decodes to exactly the integers passed |
| DuerFrames.ButtonRoundTrip | src/dueros_handle.c:32-51 | fixed-width decoding recovers every integer, whatever its bytes |
| DuerFrames.ButtonFrameBytes | src/dueros_handle.c:32-51 | the button frame byte by byte: type 0, the integers lowest byte first, a delimiter behind each but the last, a newline at the end |
| DuerFrames.FormatDuerStringData | src/dueros_handle.c:82-119 | for any prints of `vsprintf` that fit, the buffer holds the string frame of the fields shown, each as long as its text, with 5 plus the sum of those lengths plus one each |
| DuerFrames.ShownIsPrint | src/dueros_handle.c:100-109 | a field of the frame holds the print as far as it goes and then its zero byte |
| DuerFrames.StringFrameBytes | src/dueros_handle.c:94-113 | the string frame byte by byte: type 1, a delimiter, the joined arguments, a newline |
| DuerFrames.JoinMeans | src/dueros_handle.c:102-113 | a delimiter stands between two arguments and nowhere else |
| DuerFrames.TextsRoundTripIff | src/dueros_handle.c:100-113 | a receiver reads back the texts passed if and only if none holds a delimiter or a terminator and the print of each begins with the text |
| DuerFrames.PrintedRoundTripIff | src/dueros_handle.c:100-113 | with `%%` as the only directive, if and only if none holds a delimiter, a terminator or a percent sign |
| DuerFrames.StringRoundTripIff | src/dueros_handle.c:94-113 | reading the frame from a stream recovers arguments and length if and only if no argument holds a delimiter or terminator |
| DuerFrames.StringFrameInjective | src/dueros_handle.c:94-113 | two clean argument lists with the same frame are equal |
| DuerFrames.FormatDuerBinaryData | src/dueros_handle.c:136-158 | the frame of any bytes that fit is the one-argument string frame |
| LineSearch.Hangshu | src/uart_protocol.c:64-84 | the number of newline-terminated lines, or -1 if the file cannot be read |
| LineSearch.LinesPartition | src/uart_protocol.c:72-78 | the lines cut the file up to its last newline |
| LineSearch.LinesAreLines | src/uart_protocol.c:72-78 | each line has one newline, at its end |
| LineSearch.CompareFileAndUrl | src/uart_protocol.c:87-127 | the position of the first counted piece equal to the URL without its last byte, 0 if none, -1 if the file cannot be opened for update |
| LineSearch.FgetsStops | src/uart_protocol.c:107 | a piece ends behind the first newline, at 511 bytes or at the end of the file, and nowhere else |
| LineSearch.FetchedPartition | src/uart_protocol.c:105-112 | the pieces cut the front of the file up |
| LineSearch.FetchedCount | src/uart_protocol.c:105-112 | there are as many pieces as lines counted, or fewer at the end of the file |
| LineSearch.SearchMeans | src/uart_protocol.c:105-125 | the result is the position of the first piece that compares equal |
| LineSearch.EmptyUrlCompares | src/uart_protocol.c:113 | with an empty URL only a piece that begins with a zero byte compares equal |
| LineSearch.FetchedAreLines | src/uart_protocol.c:105-112 | with lines below 512 bytes the counted reads deliver exactly the lines |
| LineSearch.SearchIsExactIff | src/uart_protocol.c:97-125 | the search finds the first matching line for every URL if and only if every line has at most 511 bytes |

## Left out

- Descriptors, termios, sockets, clocks and `epoll` itself: reads are arbitrary chunks, registration a boolean, the calendar fields arbitrary valid values.
- `src/report_key.c`, `src/uartd_test_mode.c`, `src/socket_server.c`, `src/epoll_server.c` and the socket branches switched off by `NEED_SOCK_SERVER`: plumbing over libraries and system calls.
- `print_graph` and logging: display.
- ListSession.Session: of the interactive program `test()` the failed allocations, its record of 1024 nodes and the nodes it leaks on a command are absent, and its loop is a tail recursion over the lines typed.
- `init_data_to_bt_onstart` is an arbitrary producer of the send list and `send_to_dueros` an output; neither is part of this model.
- The loops of `data_process`, `send_out_handler` and `epoll_start` are steps of machines on values; the heap node a consumer reuses is in `LinkedQueue.SendUntilEmpty`, not in the pipeline machine.
- The mutexes of a list and of a fifo: their methods are sequential, and the machines take each locked region as one step.
- Short UART writes, which the code only logs: the sender's properties are about requests.
- Liveness of the two pipeline condition variables: they can lose a wakeup, so safety, order, the bounds on their steps and `StrandedIff` are stated instead.
- The failed allocations the source does not test, in `ready_send_data` and in the string and binary formatters' result struct.
- The struct around a finished frame (`BUF_INF`) is returned as the array and its length.
- What `vsprintf` prints for a directive that takes an argument: the print is a parameter, and only that of texts without such directives is defined.
- LineSearch.CompareFileAndUrl: a null path or URL is excluded, for which the source returns no value.
- `delete_file`, `file_exists` and the disabled JSON reader: no property of their own.

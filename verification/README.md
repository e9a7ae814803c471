# Models of the hard cores of the eltex training tasks

The repository is a set of C exercises. This project models the ones with state worth reasoning about and proves what
each of them is for, over every input or every run. One file per component:

- `Spiral.dfy`: the spiral fill of an n by n array.
- `ShmChat.dfy`: the shared-memory chat as a broadcast barrier (one buffer, one read flag per participant, a reader
  count, joining in-band through `/new`). The class `SharedMemory` holds the fields the programs update in place; its
  methods are proved equal to the step functions over which the run theorems are stated.
- `ShmChatFaults.dfy`: the runs on which that chat goes wrong, and exactly when.
- `ShmChatOverlap.dfy`: what becomes of it when two clients are in their sections at once.
- `ShmSemaphore.dfy`: the permits of that chat's semaphore, one transition per `sem_wait` and `sem_post`, as written.
- `MsgQueue.dfy`: the message-queue chat server, a fixed ring of messages against an unbounded log.
- `ShellParser.dfy`, `ShellPipes.dfy`: the shell's command line and its pipe wiring.
- `WorkerPool.dfy`: the UDP server with a pool of worker threads, its reclaim as it is meant to end.
- `WorkerPoolProgress.dfy`: what that server gets done: a packet taken or dropped, idle workers reclaimed, the answer
  sent, the server stopped.
- `WorkerPoolAsWritten.dfy`: that reclaim on the arrays of addresses with its byte-counted copy, and the server's runs
  with it.
- `WorkerPoolFaults.dfy`: a run with it that overwrites a busy worker's order.
- `Phonebook.dfy`: the doubly linked phonebook on the heap.
- `Shops.dfy`: customers and suppliers with one mutex per shop, and the main thread that creates and joins them.
- `ShopsProgress.dfy`: how a day at the shops can always be brought to its end.
- `InputHandoff.dfy`: the chat client's input thread and main loop.
- `LostUpdate.dfy`: threads that read, count and write back one variable.

The concurrent components are state machines: `Enabled` says which thread may move, `Step` is one access to shared
memory (or, in `ShmChat`, one critical section), and `Run` relates two states by a list of such moves, so a lemma about
`Run` is a statement about every interleaving. Memory is sequentially consistent.

## Where the code does less than it means to

Each of these is a theorem that says exactly when the code as written is right, with a run or an input on which it is
not.

- The semaphore of the shared-memory chat is posted twice on joining (`shm_chat_client.c:84-85`), so it is a lock only
  while one participant is active (`ShmSemaphore.LockExactlyWhileAlone`; two are inside after the six steps of
  `ShmSemaphore.TwoInsideAfterSixSteps`). `ShmChat` takes the critical sections as atomic, which is the intended
  reading. If two clients load the reader count before either stores it, the message they read stays in the buffer for
  ever, unless it is a `/new` the server has yet to take (`ShmChatOverlap.OverlapStopsChatExactlyWhen`; reached in
  `ShmChatOverlap.OverlapReached`).
- Participants leave with the permit they hold. Nobody gets in any more exactly when nobody is active and no client
  stands between its two posts (`ShmSemaphore.NobodyGetsInExactlyWhen`; one that does gets in in
  `ShmSemaphore.LateClientGetsIn`).
- A client that joins while the server has not read the pending message keeps slot 0, the server's, and can make the
  server miss that message for good (`ShmChatFaults.JoinCanMissExactlyWhen`; reached in
  `ShmChatFaults.TwoEarlyClients`). If the message is a quit message the server may then go on without the clients
  (`ShmChatFaults.QuitAbsorbed`): where joins and lines have been orderly so far, a pending message is final exactly
  when the server has left (`ShmChatFaults.PendingIsFinalExactlyWhenServerLeft`).
- A user who types `/new` into a free buffer stops the chat for good exactly when the server takes that line, which
  registers a client that does not exist, or gives up on it for want of a slot
  (`ShmChatFaults.TypedJoinStopsChatExactlyWhen`, on one input in `ShmChatFaults.TypedJoinTaken`). Before that a client
  that joins can read it in the server's place, and the chat goes on (`ShmChatFaults.TypedJoinAbsorbed`).
- `send_updates` loses its place once the last update has been overwritten, and repeats the whole ring when there is
  nothing new (`MsgQueue.SelectionIsExactWhenRecoverable`; rings in `MsgQueue.FullLagLosesMessages` and
  `MsgQueue.NoLagRepeatsRing`). This server never gets there: its ring has ten cells and it sends after every message,
  so exactly one is new (`MsgQueue.ChatServer.Serve`).
- The shell skips to the next letter or digit after a pipe sign, so `a | ./b` runs `b`
  (`ShellParser.ParseUndoesPrint`, `ShellParser.DotSlashIsLost`).
- Every reader of a pipeline is forked with the write end of its own input pipe open and never closes it, so it cannot
  see the end of that input (`ShellPipes.WriteEndHolders`).
- The reclaim loop's `memcpy` counts bytes where elements are meant
  (`WorkerPoolAsWritten.ByteCountedCopyIsRightExactlyWhen`, on one input in `WorkerPoolFaults.CopyLeavesFreedWorker`).
  Runs in which every scan meets that condition are the intended ones (`WorkerPoolAsWritten.GuardedRunIsRun`). For the
  ten records of this server (`WorkerPoolAsWritten.TheServersRecords`) the pool stays whole in exactly those runs
  (`WorkerPoolAsWritten.PoolSurvivesExactlyWhenGuarded`); in another one a request is written over one that a busy
  worker has not answered (`WorkerPoolFaults.BusyWorkerOverwritten`).
- The main thread stores a customer's demand after creating the customer (`shop.c:70-75`), who may have left by then.
  The stop flag means what it says if and only if that never happens
  (`Shops.SatisfiedIsTrueExactlyWhenNobodyMissed`; it happens in `Shops.DemandStoredTooLate`).
- Deleting the first or last entry of a longer phonebook drops the list, because the guard at `phonebook.c:84` says
  `||` (`PhonebookModel.Phonebook.DeleteEntry`, `PhonebookModel.DeleteFirstOfTwo`).

## Model

| member | source | states |
|---|---|---|
| Spiral.FillSpiralMatrix | eltex_tasks/spiral_matrix/source/spiral_matrix.c:7-61 | after the fill the element at i*n+j holds the closed form of row i and column j, nothing beyond n*n is touched, and the sequence of writes is exactly the row-major places of 1..n*n in order, so n*n writes and none twice |
| Spiral.BorderIsClockwise | eltex_tasks/spiral_matrix/source/spiral_matrix.c:15-59 | the first row reads 1..n from the left, and the right, lower and left border go on from there clockwise |
| Spiral.InsideIsSmallerSpiral | eltex_tasks/spiral_matrix/source/spiral_matrix.c:22-54 | what the border encloses is the spiral of side n-2, its numbers raised by the 4(n-1) of the border |
| Spiral.SpiralIsBijection | eltex_tasks/spiral_matrix/source/spiral_matrix.c:15-59 | the closed form is a bijection between the square and 1..n*n: no number twice, none missing |
| Spiral.ConsecutiveCellsTouch | eltex_tasks/spiral_matrix/source/spiral_matrix.c:15-59 | v and v+1 always lie in cells that share a side |
| Spiral.BaseClosedForm | eltex_tasks/spiral_matrix/source/spiral_matrix.c:22-54 | the rings outside ring k have 4k(n-k) cells |
| Spiral.SideNotEmpty | eltex_tasks/spiral_matrix/source/spiral_matrix.c:15-59 | every pass of the outer loop writes at least one cell, for odd and even n alike |
| ShmChat.SharedMemory.ServerStep | eltex_tasks/shared_mem/source/shm_chat_server.c:43-67 | the server's section changes the segment as its step function says: register, mark, reset, or leave |
| ShmChat.ServerSectionMeans | eltex_tasks/shared_mem/source/shm_chat_server.c:43-67 | said of the characters, flags and counters: the server leaves exactly on an unread slash message other than `/new`, gives up exactly on a `/new` past the tenth slot, and clears the barrier exactly when all have read |
| ShmChat.SharedMemory.Join | eltex_tasks/shared_mem/source/shm_chat_client.c:76-83 | the joining section posts `/new` and takes the next slot if the buffer is free, and otherwise leaves the segment alone and the client with slot 0 |
| ShmChat.SharedMemory.ClientStep | eltex_tasks/shared_mem/source/shm_chat_client.c:92-116 | the client's section posts into a free buffer, loses the line otherwise, and reads an unread message once |
| ShmChat.ServerLeavesOnSlash | eltex_tasks/shared_mem/source/shm_chat_server.c:43-58 | at its turn the server leaves on an unread slash and any text but `new`, on a `/new` only for want of a slot, and on no message without the slash |
| ShmChat.ClientLeavesOnSlash | eltex_tasks/shared_mem/source/shm_chat_client.c:104-114 | a client that reads a slash and a text leaves exactly when the text is not `new`, and on no message without the slash |
| ShmChat.StepKeepsInv | eltex_tasks/shared_mem/source/shm_chat_client.c:76-116 | every orderly step of server or client keeps flags, counters, slots and histories consistent |
| ShmChat.Broadcast | eltex_tasks/shared_mem/source/shm_chat_client.c:90-118 | over every orderly run each participant's received sequence is one contiguous run of the single log, from its own `/new` (the server: from the start) to the present, lacking exactly the message in the buffer it has not read, if any |
| ShmChat.FlagAccounting | eltex_tasks/shared_mem/source/shm_chat_server.c:43-67 | the reader count is the number of set flags among the members, a pending `/new` counted in; a free buffer means no flag is set; clients hold slots 1, 2, 3, ... |
| ShmChat.OverwriteOnlyWhenAllHaveRead | eltex_tasks/shared_mem/source/shm_chat_client.c:94-97 | a message enters the buffer only when the server and every client have read all earlier ones |
| ShmChat.QuitIsFinal | eltex_tasks/shared_mem/source/shm_chat_server.c:54-58 | in orderly runs, once a quit message is posted, buffer, flag and log never change again, and each client prints at most that one message more, and leaves on it |
| ShmChatFaults.PendingIsFinalExactlyWhenServerLeft | eltex_tasks/shared_mem/source/shm_chat_server.c:43-67 | after an orderly run, over every further run with joins at any moment, a pending message stays with nothing posted after it if and only if the server has left |
| ShmChatFaults.QuitAbsorbed | eltex_tasks/shared_mem/source/shm_chat_client.c:76-112 | a client that joins under a pending quit message reads it in the server's place, and the server goes on |
| ShmChat.OneRoundDelivers | eltex_tasks/shared_mem/source/shm_chat_server.c:63-67 | from any state holding an ordinary message one round of turns delivers it to everyone and frees the buffer |
| ShmChat.OneRoundQuits | eltex_tasks/shared_mem/source/shm_chat_client.c:104-116 | from any state holding a quit message one round of turns makes every remaining client and the server read it and leave |
| ShmChat.NewcomerGetsIn | eltex_tasks/shared_mem/source/shm_chat_client.c:76-83 | unless a quit message is pending, some orderly run registers the next client, up to nine of them in slots 1, 2, 3, ..., and tells everybody |
| ShmChat.LineGetsThrough | eltex_tasks/shared_mem/source/shm_chat_client.c:90-118 | unless a quit message is pending, some orderly run brings whatever line but `/new` a client types to everybody, and the chat ends for everybody exactly when the line starts with a slash |
| ShmChatFaults.ServerRunsOutExactlyWhenFull | eltex_tasks/shared_mem/source/shm_chat_server.c:49-52 | on orderly runs the server has no reason to leave for too many clients; after a further join into the free buffer it does if and only if all ten slots were taken |
| ShmChatFaults.JoinIsSafeExactlyWhenFree | eltex_tasks/shared_mem/source/shm_chat_client.c:76-83 | a join keeps the protocol if and only if no message is pending and a slot is free |
| ShmChatFaults.JoinCanMissExactlyWhen | eltex_tasks/shared_mem/source/shm_chat_client.c:76-83 | after a join some run makes the server miss a message for good if and only if a message was pending with the server still there, or, with the buffer free, all slots were taken |
| ShmChatFaults.AliasMakesServerMiss | eltex_tasks/shared_mem/source/shm_chat_client.c:101-112 | a client that shares slot 0 and reads before the server marks the message as read for the server, whose log then never holds it |
| ShmChatFaults.TwoEarlyClients | eltex_tasks/shared_mem/source/shm_chat_client.c:76-83 | two clients joining before the server's first turn reach such a state |
| ShmChatFaults.TypedLineIsSafeExactlyWhenNotJoin | eltex_tasks/shared_mem/source/shm_chat_client.c:92-100 | a typed line keeps the protocol if and only if it is lost to a pending message or is not `/new` |
| ShmChatFaults.TypedJoinStopsChatExactlyWhen | eltex_tasks/shared_mem/source/shm_chat_client.c:92-100 | after an orderly run a user types `/new` into the free buffer; over every further run, while that line is pending, the chat is stopped for good if and only if the server has taken it or has left |
| ShmChatFaults.TypedJoinTaken | eltex_tasks/shared_mem/source/shm_chat_client.c:92-100 | a single registered client types `/new`, the server takes it, and no later run moves the chat |
| ShmChatFaults.TypedJoinAbsorbed | eltex_tasks/shared_mem/source/shm_chat_client.c:76-112 | a second client joins before the server's turn, and the buffer is freed again |
| ShmChatFaults.LostLineChangesNothing | eltex_tasks/shared_mem/source/shm_chat_client.c:94-97 | a line typed while a message is pending has no effect |
| ShmChatOverlap.AloneIsOneStep | eltex_tasks/shared_mem/source/shm_chat_client.c:104-117 | a reading section split at the load of the reader count has, undisturbed, the effect of the one step it is taken for |
| ShmChatOverlap.OverlapStopsChatExactlyWhen | eltex_tasks/shared_mem/source/shm_chat_client.c:104-109 | two clients that load the reader count before either stores it lose one increment, which stops the chat for good if and only if the message is not a `/new` the server has yet to take |
| ShmChatOverlap.OverlapReached | eltex_tasks/shared_mem/source/shm_chat_client.c:104-109 | three clients and one ordinary message reach such a stop |
| ShmSemaphore.PermitAccounting | eltex_tasks/shared_mem/source/shm_chat_client.c:78-117 | on the code as written, permits available plus participants inside always equal the active participants |
| ShmSemaphore.NobodyStranded | eltex_tasks/shared_mem/source/shm_chat_server.c:38-69 | exits that keep their permit strand nobody: each active participant that waits can enter or somebody is inside, and whoever is inside can post |
| ShmSemaphore.SomeParticipantCanMove | eltex_tasks/shared_mem/source/shm_chat_server.c:38-69 | while anyone is active some participant that has arrived can move |
| ShmSemaphore.NobodyGetsInExactlyWhen | eltex_tasks/shared_mem/source/shm_chat_client.c:78-117 | no later run has anyone inside if and only if nobody is active and no client stands between its two posts |
| ShmSemaphore.LateClientGetsIn | eltex_tasks/shared_mem/source/shm_chat_client.c:78-91 | the server leaves after a client's first post, and its second post lets that client in |
| ShmSemaphore.LockExactlyWhileAlone | eltex_tasks/shared_mem/source/shm_chat_client.c:84-85 | two participants can be inside at once if and only if at least two are active |
| ShmSemaphore.TwoInsideAfterSixSteps | eltex_tasks/shared_mem/source/shm_chat_client.c:78-92 | a reachable state with two inside |
| MsgQueue.AddKeepsRing | eltex_tasks/msg_queue/source/chat_server.c:26-39 | after a message is added the ring and write position hold the newest messages of the extended log, wrapping included |
| MsgQueue.ChatServer.UpdateStart | eltex_tasks/msg_queue/source/chat_server.c:53-75 | the two search loops find the position after the last update, or 0 |
| MsgQueue.ChatServer.CopyOut | eltex_tasks/msg_queue/source/chat_server.c:76-105 | the copying loops return the messages from a position up to the write position, around the end if need be |
| MsgQueue.SelectionIsExactWhenRecoverable | eltex_tasks/msg_queue/source/chat_server.c:50-105 | for every ring and lag, what is selected equals the log after the last update if and only if the lag is 1 to size-1, or the size with the write position at 0 |
| MsgQueue.FullLagLosesMessages | eltex_tasks/msg_queue/source/chat_server.c:50-105 | with the write position at 1 and both messages of a ring of two new, the older one is not selected |
| MsgQueue.NoLagRepeatsRing | eltex_tasks/msg_queue/source/chat_server.c:50-105 | with nothing new a full ring of two is selected again |
| MsgQueue.ChatServer.SendUpdates | eltex_tasks/msg_queue/source/chat_server.c:106-120 | every client is sent exactly the messages after the last update, in order, and the newest id is returned |
| MsgQueue.ChatServer.FindUserByName | eltex_tasks/msg_queue/source/chat_server.c:41-48 | the first client with the name, or none if there is none |
| MsgQueue.ChatServer.Connect | eltex_tasks/msg_queue/source/chat_server.c:166-186 | a connection appends a client with the next id and the first 99 characters of its name that has been sent nothing, and keeps everyone else's history |
| MsgQueue.ChatServer.Receive | eltex_tasks/msg_queue/source/chat_server.c:197-212 | a message is logged with the next id under the first client whose name, free of colons, stands before the first colon, and every client's history again matches the log since it joined |
| MsgQueue.NameIsUpToColon | eltex_tasks/msg_queue/source/chat_server.c:199-202 | the sender's name is what stands before the first colon |
| MsgQueue.ChatServer.Serve | eltex_tasks/msg_queue/source/chat_server.c:156-213 | over every list of packets up to a shutdown, a client that joined after k messages has been sent exactly the messages from k on |
| MsgQueue.HistoryIsLaterTexts | eltex_tasks/msg_queue/source/chat_server.c:156-213 | that history, said of the packets: the texts that came after the client's own connection and before the shutdown, each once and in order |
| MsgQueue.ServeableWhen | eltex_tasks/msg_queue/source/chat_server.c:156-213 | packet lists with at most ten connections, in which each text starts with the name of an earlier one and a colon, can all be served |
| ShellParser.SeparateArgsOf | eltex_tasks/fork_task/source/shell.c:29-90 | the tokenising loop yields the arguments up to a pipe sign or the end, and says which it was |
| ShellParser.SeparateArgsMeans | eltex_tasks/fork_task/source/shell.c:29-90 | a printed command followed by a pipe sign, by spaces or by the end yields its arguments, and the end flag says which it was |
| ShellParser.StartableExactlyWhen | eltex_tasks/fork_task/source/shell.c:29-90 | a line has a first argument exactly when it starts with neither a space nor a pipe sign standing alone |
| ShellParser.TrimLineFrom | eltex_tasks/fork_task/source/shell.c:92-105 | the line pointer ends at the next letter or digit after the command |
| ShellParser.TrimLineMeans | eltex_tasks/fork_task/source/shell.c:92-105 | after a printed command exactly the characters in front of the next of the 62 letters and digits are skipped |
| ShellParser.AlnumIsLettersAndDigits | eltex_tasks/fork_task/source/shell.c:101 | the class at which the pointer stops is the 62 letters and digits, written out |
| ShellParser.ParseStep | eltex_tasks/fork_task/source/shell.c:176-195 | one turn of the parse loop shortens the text and leaves it parsable, so the loop ends |
| ShellParser.ParseUndoesPrint | eltex_tasks/fork_task/source/shell.c:29-105 | a printed pipeline of well-formed arguments parses back to itself if and only if every later command starts with one of the 62 letters and digits |
| ShellParser.CapitalComesBack | eltex_tasks/fork_task/source/shell.c:92-105 | a printed pipeline of `a -l` and `Rb` parses to just these |
| ShellParser.DotSlashIsLost | eltex_tasks/fork_task/source/shell.c:92-105 | the printed pipeline of `a` and `./b` parses to `a` and `b` |
| ShellParser.ParsedTailsAlnum | eltex_tasks/fork_task/source/shell.c:101-103 | whatever the line, a command after a pipe sign is empty or starts with a letter or digit |
| ShellPipes.LowestFree | eltex_tasks/fork_task/source/shell.c:137 | a descriptor handed out is free and no lower one is |
| ShellPipes.Shell.SetPipes | eltex_tasks/fork_task/source/shell.c:129-141 | a reader takes the previous pipe's read end, a writer the write end of a pipe with two fresh descriptors |
| ShellPipes.Shell.StartCommands | eltex_tasks/fork_task/source/shell.c:176-195 | the commands are those of the line, n commands make n-1 pipes, neighbours hold the two ends of one pipe, the first reads stdin and the last writes stdout; each child is forked with both ends of every pipe made so far |
| ShellPipes.WriteEndHolders | eltex_tasks/fork_task/source/shell.c:129-195 | the write end of a pipe is held by exactly the commands from its writer on, its own reader among them |
| ShellPipes.OnlyNeighboursShareAPipe | eltex_tasks/fork_task/source/shell.c:108-141 | a writer and a reader hold the ends of one pipe if and only if the reader comes next |
| ShellPipes.Shell.WaitCommands | eltex_tasks/fork_task/source/shell.c:197-216 | the wait loop closes only open descriptors, each once, down to those open before |
| ShellPipes.Shell.RunLine | eltex_tasks/fork_task/source/shell.c:160-216 | `quit_shell` and nothing else ends the shell; any other line is run, its n commands joined by n-1 pipes, and leaves the set of open descriptors as it found it |
| WorkerPool.BusyLoop | eltex_tasks/server_models/source/man_con_server.c:38-46 | the unsigned counter never goes below 0 and ends at 1 |
| WorkerPool.StepKeepsInv | eltex_tasks/server_models/source/man_con_server.c:94-129 | every step of dispatcher or worker keeps pool, requests and replies consistent |
| WorkerPool.PoolIsPartitioned | eltex_tasks/server_models/source/man_con_server.c:103-128 | in every reachable state free, in-hand and occupied workers are a permutation of the pool and free workers have flag 0; between packets free and occupied alone are |
| WorkerPool.FlaggedWorkerIsOccupied | eltex_tasks/server_models/source/man_con_server.c:103-112 | every worker with flag 1 is occupied or about to be pushed |
| WorkerPool.EveryRequestAnsweredOnce | eltex_tasks/server_models/source/man_con_server.c:32-55 | under every interleaving at most one reply per accepted request, to its requester, equal to the request plus 1 as a C int; no accepted request is lost |
| WorkerPool.RequestIsAnsweredOrHeld | eltex_tasks/server_models/source/man_con_server.c:32-55 | every accepted request is answered or is the order of a worker whose flag is set |
| WorkerPool.BusyWorkerIsUntouched | eltex_tasks/server_models/source/man_con_server.c:103-111 | nobody else changes the order, address or flag of a busy worker |
| WorkerPool.FreeWorkerHasAnswered | eltex_tasks/server_models/source/man_con_server.c:115-119 | a worker returns to the free stack only after its reply |
| WorkerPool.ReclaimKeepsOrder | eltex_tasks/server_models/source/man_con_server.c:113-128 | the workers still occupied stand at increasing positions of the list before, although flags may drop during the scan |
| WorkerPool.FourTurnsAnswer | eltex_tasks/server_models/source/man_con_server.c:36-54 | four turns of a flagged worker send exactly its answer and clear its flag |
| WorkerPoolProgress.FullPoolIsReclaimed | eltex_tasks/server_models/source/man_con_server.c:94-128 | with no worker free a packet is dropped and the scan still runs: after one turn per occupied worker and one more exactly those whose flag was clear are free, in order, the others are occupied, in order, and nothing was accepted |
| WorkerPoolProgress.RequestIsTaken | eltex_tasks/server_models/source/man_con_server.c:100-128 | with a worker free the packet is accepted by the one freed last, which gets its data and flag and stays occupied, and the same scan follows |
| WorkerPoolProgress.AnswerIsSent | eltex_tasks/server_models/source/man_con_server.c:32-55 | four turns of a flagged polling worker are a run that sends the requester the number plus 1 as a C int and clears the flag |
| WorkerPoolProgress.StopsExactlyOnMinusOne | eltex_tasks/server_models/source/man_con_server.c:100-102 | a packet stops the server if and only if it carries -1, and that packet changes nothing else |
| WorkerPoolProgress.StoppedForGood | eltex_tasks/server_models/source/man_con_server.c:100-130 | after that only workers move: nothing is accepted or reclaimed on any later run |
| WorkerPoolAsWritten.Reclaim | eltex_tasks/server_models/source/man_con_server.c:113-128 | on the arrays as written: freed workers are appended in order, and the occupied prefix is what a copy of that many bytes leaves |
| WorkerPoolAsWritten.CopiedBytes | eltex_tasks/server_models/source/man_con_server.c:126 | byte by byte: the copy takes the first k bytes of eight-byte addresses, lowest byte first, and leaves every other byte alone |
| WorkerPoolAsWritten.SeenPartitions | eltex_tasks/server_models/source/man_con_server.c:115-125 | the scan splits the occupied workers into freed and kept, losing and doubling none |
| WorkerPool.SeenKeepsOrder | eltex_tasks/server_models/source/man_con_server.c:115-125 | the workers kept, and those freed, stand at increasing positions of the list scanned |
| WorkerPoolAsWritten.ByteCountedCopyIsRightExactlyWhen | eltex_tasks/server_models/source/man_con_server.c:126 | the byte-counted copy rebuilds the occupied list if and only if nothing is kept, or no one was freed in front of a kept worker, or the single kept worker's address differs from the first one's in the lowest byte only |
| WorkerPoolFaults.CopyLeavesFreedWorker | eltex_tasks/server_models/source/man_con_server.c:126 | on three addresses the copy keeps a freed worker in place of a busy one |
| WorkerPoolAsWritten.ScanEndIsRightExactlyWhen | eltex_tasks/server_models/source/man_con_server.c:113-128 | in every state that satisfies the invariant the end of a scan as written is the intended one if and only if that condition holds of what the scan read |
| WorkerPoolAsWritten.GuardedRunIsRun | eltex_tasks/server_models/source/man_con_server.c:94-129 | runs as written whose scans all meet the condition are runs of the intended server, so everything proved of those holds |
| WorkerPoolAsWritten.GuardedServerKeepsItsPromises | eltex_tasks/server_models/source/man_con_server.c:94-129 | on such runs the pool stays partitioned and no request is lost or answered twice |
| WorkerPoolAsWritten.LostForGood | eltex_tasks/server_models/source/man_con_server.c:94-129 | with addresses that differ in the lowest byte a worker that is in no list never comes back |
| WorkerPoolAsWritten.PoolSurvivesExactlyWhenGuarded | eltex_tasks/server_models/source/man_con_server.c:94-129 | with such addresses, after a run as written the pool is partitioned if and only if every scan met the condition |
| WorkerPoolAsWritten.TheServersRecords | eltex_tasks/server_models/source/man_con_server.c:16-23 | ten records of 72 bytes in a row differ in the lowest byte of their addresses |
| WorkerPoolAsWritten.CopyMayPermute | eltex_tasks/server_models/source/man_con_server.c:126 | three addresses that do not, on which the condition fails and the copy only reorders the workers |
| WorkerPoolFaults.BusyWorkerOverwritten | eltex_tasks/server_models/source/man_con_server.c:103-128 | for every pool of at least three, wherever the workers lie in memory, a run as written ends with a request about to be written over one a busy worker has not answered |
| PhonebookModel.Phonebook.LastEntry | eltex_tasks/phonebook/source/phonebook.c:133-140 | the last entry of the list, or none if it is empty |
| PhonebookModel.Phonebook.AddEntry | eltex_tasks/phonebook/source/phonebook.c:26-79 | a new entry with the next id is appended; links, size and increasing ids stay right; a name of fewer than 20 characters is stored as it is, a longer one as the empty text |
| PhonebookModel.Phonebook.DeleteEntry | eltex_tasks/phonebook/source/phonebook.c:81-110 | as written: what the list becomes, and that it loses just that entry and the phonebook stays well formed if and only if the entry was interior or the only one |
| PhonebookModel.DeleteFirstOfTwo | eltex_tasks/phonebook/source/phonebook.c:84-89 | deleting the first of two entries leaves an empty list that counts one |
| PhonebookModel.Phonebook.Search | eltex_tasks/phonebook/source/phonebook.c:112-131 | the first min(capacity, matches) matching ids are written in list order and the rest of the array is left alone |
| PhonebookModel.MatchingIsExact | eltex_tasks/phonebook/source/phonebook.c:120-130 | an id is found if and only if an entry with the name carries it |
| PhonebookModel.MatchingIsIncreasing | eltex_tasks/phonebook/source/phonebook.c:120-130 | the ids found are strictly increasing |
| PhonebookModel.Phonebook.GetEntryById | eltex_tasks/phonebook/source/phonebook.c:234-243 | the one entry with the id, or none if no entry has it |
| Shops.StepKeepsInv | eltex_tasks/threads_task/source/shop.c:19-100 | every step of customer, supplier or main thread keeps mutex holders, taken amounts, creations and joins consistent |
| Shops.StockIsConserved | eltex_tasks/threads_task/source/shop.c:19-100 | in every interleaving, of the demand handed out so far, what is met plus stock, less stock taken but not yet cleared, is initial stock plus everything supplied |
| Shops.LoopsEndExactlyWhen | eltex_tasks/threads_task/source/shop.c:21-41 | a customer back outside leaves exactly when its demand is at most 0, a supplier exactly when the flag is set |
| Shops.DemandChangesExactlyWhen | eltex_tasks/threads_task/source/shop.c:27-75 | in every step of every thread a demand changes only when it is handed out or when its customer takes a shelf |
| Shops.LoadIsLastDrawn | eltex_tasks/threads_task/source/shop.c:47-86 | in every step of every thread a load changes only when the main thread or its supplier draws the next one, and to that |
| Shops.EveryDrawIsPossible | eltex_tasks/threads_task/source/shop.c:22-86 | demands are any numbers below 10000, loads any below 1000, and a customer or supplier may go to any shop |
| Shops.ShopsAreExclusive | eltex_tasks/threads_task/source/shop.c:23-52 | no two threads are in one shop and no shelf goes negative |
| Shops.SatisfiedIsTrueExactlyWhenNobodyMissed | eltex_tasks/threads_task/source/shop.c:67-100 | once the stop flag is set, all demands are met if and only if no customer had already left when its positive demand was stored |
| Shops.UnmetAreTheMissed | eltex_tasks/threads_task/source/shop.c:67-100 | the unmet demands are those of exactly the customers who had |
| Shops.DemandStoredTooLate | eltex_tasks/threads_task/source/shop.c:67-100 | for any numbers of shops, customers and suppliers a run that sets the flag with a demand of 5 unmet |
| Shops.BooksBalanceAfterJoins | eltex_tasks/threads_task/source/shop.c:90-100 | after all joins every thread has finished and the books balance with nothing in flight |
| Shops.NoDeadlock | eltex_tasks/threads_task/source/shop.c:19-100 | in every interleaving some thread can move until the main thread has joined all of them |
| ShopsProgress.EveryRunCanEnd | eltex_tasks/threads_task/source/shop.c:19-100 | whatever the threads have done so far, with a shop and a supplier the run goes on to one in which every thread has finished and is joined |
| Shops.VisitIsBuy | eltex_tasks/threads_task/source/shop.c:23-32 | whatever the other threads do meanwhile, two turns of a customer inside a shop take the whole shelf off its demand and leave the shelf empty |
| Shops.VisitIsRestock | eltex_tasks/threads_task/source/shop.c:43-52 | whatever the other threads do meanwhile, a supplier's turns inside a shop raise its shelf by the load it read |
| Shops.Market.Buy | eltex_tasks/threads_task/source/shop.c:27-28 | demand and shelf fall by the same amount, so their difference is unchanged |
| Shops.Market.Restock | eltex_tasks/threads_task/source/shop.c:47-48 | the total stock rises by the supplier's load |
| InputHandoff.StepKeepsInv | eltex_tasks/msg_queue/source/chat_client.c:22-38 | every turn of either thread keeps mutex, flag, buffer and histories consistent |
| InputHandoff.SentIsPrefixOfTyped | eltex_tasks/msg_queue/source/chat_client.c:111-126 | in every interleaving the packets sent are those of a prefix of the typed lines, lacking at most one, in order: a line that starts with a slash as the stop request, any other as a message with that text |
| InputHandoff.BufferIsWrittenUnderTheMutex | eltex_tasks/msg_queue/source/chat_client.c:22-38 | in every interleaving the buffer changes only by what the input thread reads in, and then that thread holds the mutex |
| InputHandoff.BufferIsStableWhileSending | eltex_tasks/msg_queue/source/chat_client.c:112-125 | the input thread cannot change the buffer while the main loop looks at it or sends from it |
| InputHandoff.WaitingLineIsSent | eltex_tasks/msg_queue/source/chat_client.c:111-126 | once the input thread waits, a completed line is sent within four turns of the main loop |
| InputHandoff.NextLineCanBeTyped | eltex_tasks/msg_queue/source/chat_client.c:22-38 | neither thread gets stuck: from every state a run lets the user type whatever line comes next |
| LostUpdate.CountUp | eltex_tasks/threads_task/source/threads.c:12-14 | the loop adds 100000 to the local copy |
| LostUpdate.FinalValues | eltex_tasks/threads_task/source/threads.c:8-45 | the final values n threads can leave are exactly 100000 times 1, 2, ..., n |
| LostUpdate.SequentialRunLosesNothing | eltex_tasks/threads_task/source/threads.c:20-45 | threads run one after the other lose no update |

## Left out

- Broadcast: takes each critical section as one atomic step, as does every run theorem of `ShmChat` and
  `ShmChatFaults`; with the second `sem_post` the semaphore alone does not give that. Its runs are those in which
  clients join while the buffer and a slot are free and nobody gets a typed `/new` into the buffer; `ShmChatFaults`
  says what happens otherwise.
- PoolIsPartitioned: is about the scan as it is meant to end, as are the other run theorems of `WorkerPool`;
  `WorkerPoolAsWritten` says for which runs of the code as written they hold.
- PoolSurvivesExactlyWhenGuarded: assumes that the lowest bytes of the workers' addresses differ. That depends on the
  size of a record, which is taken to be 72 bytes as on a 64-bit Linux.
- NobodyGetsInExactlyWhen: lets a participant leave whenever it is inside; `ShmSemaphore` does not say which message is
  in the buffer.
- OverlapStopsChatExactlyWhen: is about two clients. The server's own reading is not split into a load and a store.
- SelectionIsExactWhenRecoverable: reads `chat_server.c:38` as `(iter + 1) % size` (C leaves the order of its two writes
  open) and `chat_server.c:87` as room for that many messages.
- FindUserByName: the copy of the sender's name is taken as terminated; `chat_server.c:202` leaves the terminator out.
- Serve: packets come from senders that are connected, and at most 10 clients connect.
- RunLine: the line starts with an argument and has at most 10 commands; pipe() succeeds and hands out the lowest free
  descriptors. What a child reads and writes, and so the bytes the shell writes into a pipe before closing it
  (`shell.c:209`), is not modelled.
- TrimLineFrom: is not called without arguments. The source does so after a trailing pipe sign, reading on from one
  character before the text, and on an empty line, where that is before the buffer; the loop then ends.
- StockIsConserved: a supplier's number is its index (`shop.c:80` fills the customers' array and leaves the suppliers'
  unset), and there is at least one customer. Stocks and demands are unbounded integers.
- DeleteEntry: freed memory is not modelled, so neither is `phonebook_delete`, which keeps walking entries after its
  first deletion has dropped the list.
- FillSpiralMatrix: n * n fits in a C int.
- Join: the client that takes slot 10 when all are taken has no status flag in the array; its reading and writing past
  the end is not modelled, only that it joins.
- Sockets, message queues, shared-memory mapping, fork, exec, wait, terminal input and output: events, fresh
  descriptors or logs.
- Sizes and ids held in `size_t` are natural numbers; the worker's 32-bit answer is modelled with its wrap-around.
- Scheduling fairness: progress is stated as "so many turns suffice".
- What the worker-pool server does with memory after it stops: the workers are still running then.
- `thread_creating_server.c`, `selecting_server.c`, the file manager and the socket examples: what they do is done by
  the operating system. The calculators, the bit exercises and the matrix printer: each is one expression or one loop
  with no state that outlives it.

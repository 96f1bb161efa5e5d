# Verified model of the C++ web server

A Dafny model of the server's own C++ (`webServer/`), with proofs about what it promises. The
parts share one queue type and are modelled in layers.

**Lists, queues and events.** `ListSpec` says what each call of `SingleLinkedList` means on
values, with the cached count wrapping at 32 bits and with the nodes that are lost without
being deleted. `LinkedList` is the pointer code, proved to make exactly those changes: every
method keeps the nodes distinct, linked in order and holding the items, and deletes no node
twice. `EventMessage` is the byte codec, `EventQueue` the typed queue over the heap list.

**Remote logging.** `RemoteProtocol` is a state machine of the log writers, the logger thread
and the reconnect thread with both mutexes, both condition variables, the shared socket and
the two queues. Every call to the operating system may answer anything it can answer.
`RemoteMail` says how messages move, `RemoteSafety` what every interleaving keeps,
`RemoteDeadlock` the one deadlock and the worth of a wake-up, `RemoteScenarios` concrete runs
in which the bad cases occur. `RemoteInterference` is what one thread can rely on while the
others run, `SendCalls` what the calls of `send` take of what the system answers. `RemoteWriter` is
the object over the heap queues: its history is a run of the state
machine, each of its methods extends that run by its own steps, and between any two of them the
other threads take any steps they can. So the theorems about runs hold of the object.

**Database.** `MySQLConnector` is the batching state machine of the DB thread, the idle
committer, the sessions and the destructor, and the connector object over the heap queue, each of
whose methods extends a run of it by one step. The server runs the statements that the sessions
enqueued, text for text.

**Connections.** `TcpPipeline` is the path of accepted connections through handlers, queue and
worker; `TcpServer` is the object over the heap queue, whose history is a run of that pipeline
and whose worker answers each connection through `HttpService`.

**HTTP.** `CppString` holds the string searches, `HttpParser` the meaning of a request line by
line and the parser that builds it, `HttpRequestLaws` the laws about that meaning,
`HttpResponse` the response builders and the client that reads and frames them, `HttpSession` the
session map, `HttpLogin` the login form and the dispatch, `HttpService` one request from its
bytes to its response, `HttpServiceLaws` what those responses are worth to a client, `HttpAnswers`
what a client finds for each request it can make, spelled out to the header lines and the file.

Promises that one might expect and that are false of the code are stated with the exact condition
and a concrete case:

- Log messages are delivered in write order: false when a direct send overtakes the pending
  queue (`RemoteSafety.OutOfOrderExactly`, `RemoteScenarios.OutOfOrderHappens`).
- The logger and reconnect threads never block each other: false in exactly one pair of
  program points, for ever (`RemoteDeadlock.StuckExactly`, `RemoteDeadlock.StuckForever`,
  `RemoteScenarios.StuckHappens`).
- A written message is popped once its notification is made: false exactly for as many messages
  as there were writes that found the logger not waiting, less the pops after wake-ups that no
  write had caused (`RemoteDeadlock.BacklogExactly`, `RemoteDeadlock.LeftBehindExactly`,
  `RemoteScenarios.MissedNotificationHappens`).
- With commits that succeed the process shuts down in order: false exactly when the destructor
  runs between the idle committer's check and its commit
  (`MySQLConnector.CrashExactlyUnderCommit`, `MySQLConnector.CrashUnderCommitHappens`).
- The list's count is its length: it differs by an exact tally of three kinds of call
  (`ListSpec.CounterDrift`, `ListSpec.DriftHappens`).
- Every node is deleted: one is lost by each popBack on two items and each insertAtNth out of
  range, and by nothing else (`ListSpec.LostExactly`, `ListSpec.DriftHappens`).
- Every parsed request has a session id: false exactly for a first `Cookie` line with an empty
  value (`HttpRequestLaws.CookieEmptyExactly`, `HttpRequestLaws.EmptyCookieHappens`).
- Every request gets a response: false exactly for requests that pass the token check and are a
  POST to /login with a body without '&', or whose page has lost its placeholder
  (`HttpServiceLaws.NoResponseExactly`, `HttpServiceLaws.NoResponseHappens`).
- Every response holds something: false exactly for requests that pass the token check and have no
  request line, a GET of an unknown path, or a method other than GET and POST
  (`HttpServiceLaws.EmptyResponseExactly`, `HttpServiceLaws.EmptyResponseHappens`).
- Every response hands the client its cookie: false exactly for the redirect, the icon, a missing
  style sheet and an empty response (`HttpServiceLaws.CookieHandedOutExactly`,
  `HttpServiceLaws.RedirectHappens`).
- Every response is as long as it declares: true exactly of the pages and the style sheets that are
  found (`HttpServiceLaws.WholeResponseExactly`, `HttpServiceLaws.RedirectHappens`).

Answers of the operating system, of the database server and of the clock, the file contents, the
home page's text, generated session ids and the iteration order of the unordered tables are
parameters or nondeterministic steps. A commit that throws is taken to have made nothing durable.

## Model

| member | source | states |
|---|---|---|
| RemoteSafety.MutualExclusion | webServer/src/Modules/Logger/RemoteWriter.cpp:109-189 | in every reachable state each mutex is held exactly over the lines that lock it, by one thread, and only a thread inside its critical section holds a message |
| RemoteSafety.Conservation | webServer/src/Modules/Logger/RemoteWriter.cpp:109-189 | in every interleaving each written message is in exactly one of live queue, pending queue, in flight, delivered, dropped |
| RemoteSafety.DroppedOnlyByError | webServer/src/Modules/Logger/RemoteWriter.cpp:46-83 | a message is dropped exactly when its own sendMessage returns ERROR and delivered exactly when it returns SUCCESS; neither is undone |
| RemoteSafety.ConnectedImpliesDrained | webServer/src/Modules/Logger/RemoteWriter.cpp:124-186 | outside the window from the socket's assignment to the end of the drain, an open socket means nothing is pending or about to be |
| RemoteSafety.PoppedIsPrefix | webServer/src/Modules/Logger/RemoteWriter.cpp:120-122 | the popped messages are a prefix of those written; the live queue is the rest in order |
| RemoteSafety.DeliveryOrder | webServer/src/Modules/Logger/RemoteWriter.cpp:124-185 | delivery is in write order if and only if no delivered message had been overtaken |
| RemoteSafety.OvertakenExactly | webServer/src/Modules/Logger/RemoteWriter.cpp:124-131 | overtaken are exactly the messages that were pending at a step where a direct send succeeded |
| RemoteSafety.OutOfOrderExactly | webServer/src/Modules/Logger/RemoteWriter.cpp:124-185 | a run delivers out of write order exactly when a direct send succeeded over a pending message that is delivered later |
| RemoteSafety.InOrderOutsideWindow | webServer/src/Modules/Logger/RemoteWriter.cpp:13-186 | if the logger never reads an open socket inside the window, delivery is in write order |
| RemoteSafety.WakesExactly | webServer/src/Modules/Logger/RemoteWriter.cpp:111-112 | a write, stopLogger and a spurious wake-up wake a waiting logger, and nothing else does |
| RemoteSafety.ThreadsEnd | webServer/src/Modules/Logger/RemoteWriter.cpp:114-162 | the first look of each thread behind setCloseflag ends it, and nothing else does |
| RemoteMail.MovesConserve | webServer/src/Modules/Logger/RemoteWriter.cpp:120-140 | every move of a message between the places keeps the multiset of messages |
| RemoteMail.MovesKeepOrder | webServer/src/Modules/Logger/RemoteWriter.cpp:120-185 | every move keeps what is held in write order and the overtaken set exact |
| RemoteMail.DrainRunEffect | webServer/src/Modules/Logger/RemoteWriter.cpp:180-185 | a drain delivers the pending messages that were sent, in pending order, drops the others and touches nothing else |
| RemoteDeadlock.StuckExactly | webServer/src/Modules/Logger/RemoteWriter.cpp:111-174 | the threads block each other exactly with the logger at line 128 after a failed direct send and the reconnect thread at line 174 |
| RemoteDeadlock.StuckForever | webServer/src/Modules/Logger/RemoteWriter.cpp:128-174 | once so, no message is ever written, popped, sent or dropped again |
| RemoteDeadlock.OnlyDeadlock | webServer/src/Modules/Logger/RemoteWriter.cpp:109-189 | in every other reachable state a thread can step, or the reconnect thread has finished and the logger waits or has finished |
| RemoteDeadlock.NoFailureNoDeadlock | webServer/src/Modules/Logger/RemoteWriter.cpp:126-129 | runs in which every direct send succeeds never get stuck |
| RemoteDeadlock.BacklogExactly | webServer/src/Modules/Logger/RemoteWriter.cpp:109-122 | in every run the live queue holds exactly the messages whose notification found the logger not waiting, and the one of a write that has just woken it, less those popped after wake-ups that no write had caused |
| RemoteDeadlock.LeftBehindExactly | webServer/src/Modules/Logger/RemoteWriter.cpp:109-122 | when only writes wake it, a waiting logger has left a message behind exactly when some write found it not waiting |
| RemoteDeadlock.BacklogNeverShrinks | webServer/src/Modules/Logger/RemoteWriter.cpp:109-122 | when only writes wake it, the live length never falls from one entry of the logger's wait to the next |
| RemoteScenarios.StuckHappens | webServer/src/Modules/Logger/RemoteWriter.cpp:109-174 | a concrete run reaches the deadlock |
| RemoteScenarios.OutOfOrderHappens | webServer/src/Modules/Logger/RemoteWriter.cpp:109-185 | a concrete run delivers the second message before the first |
| RemoteScenarios.MissedNotificationHappens | webServer/src/Interfaces/LogWriterInterface.cpp:31-48 | a concrete run leaves a written message behind because its notification found nobody waiting |
| SendCalls.TookIsDetermined | webServer/src/Modules/Logger/RemoteWriter.cpp:46-83 | what each call of send takes is fixed by the system's answers: the count answered, or all that remained |
| RemoteWriter.RemoteWriter.SendMessage | webServer/src/Modules/Logger/RemoteWriter.cpp:46-83 | for either thread and whatever the others do between the calls of send: the system accepts the prefix that its answers add up to, all of it exactly on SUCCESS; an ERROR comes only from an answer that is no count or from a closed socket, leaves the socket closed and is the protocol's failing step |
| RemoteWriter.RemoteWriter.Write | webServer/src/Interfaces/LogWriterInterface.cpp:31-48 | the live queue gains the text up to its first NUL, whatever the buffer held before; this is the protocol's write step |
| RemoteInterference.LoggerRelies | webServer/src/Modules/Logger/RemoteWriter.cpp:111-142 | while the logger holds mMutex the others change neither the mail nor the close flag, only the socket |
| RemoteInterference.RetryRelies | webServer/src/Modules/Logger/RemoteWriter.cpp:155-189 | while the reconnect thread holds mRetryMutex nobody else opens the socket, and during the drain nobody touches the mail |
| RemoteWriter.RemoteWriter.ProcessOne | webServer/src/Modules/Logger/RemoteWriter.cpp:112-142 | whatever the others do between its steps: a wake-up ends on the close flag, else pops one message if there is one, sends it directly, as the system answers, if the socket was open when line 124 read it and keeps it as pending if not; a send that fails leads to the notification |
| RemoteWriter.RemoteWriter.NotifyRetry | webServer/src/Modules/Logger/RemoteWriter.cpp:128-129 | with mRetryMutex to be had, and whatever the others do in between, a reconnect thread that waits at the notification is woken and the logger goes back to its wait |
| RemoteWriter.RemoteWriter.ConnectToRemoteLogServer | webServer/src/Modules/Logger/RemoteWriter.cpp:7-44 | whatever the others do between its calls: SUCCESS with the socket open unless one of the three calls failed or found the socket closed by another thread; otherwise the socket is closed |
| RemoteWriter.RemoteWriter.DestroySocket | webServer/include/Modules/Logger/RemoteWriter.h:44-48 | the destructor closes the socket; this is the protocol's step |
| RemoteWriter.RemoteWriter.Heartbeat | webServer/src/Modules/Logger/RemoteWriter.cpp:156-172 | a timeout ends the thread on the close flag, or the heartbeat is sent as the system answers, or it fails and the socket is opened again or left closed |
| RemoteWriter.RemoteWriter.KeepPending | webServer/src/Modules/Logger/RemoteWriter.cpp:132-141 | the pending queue gains the popped message with its text unchanged; this is the protocol's store step |
| RemoteWriter.RemoteWriter.Drain | webServer/src/Modules/Logger/RemoteWriter.cpp:174-185 | whatever the others do between its steps: the pending queue is emptied in order, each message sent as the system answers; after the first failed send only empty texts count as sent |
| ListSpec.InsertAtNthSucceeds | webServer/include/Containers/LinkedList.h:271-297 | insertAtNth(n) succeeds exactly for 1 <= n <= length + 1, and for n = 0 only on a list of 2^32 - 1 items or more |
| ListSpec.ReverseTwice | webServer/include/Containers/LinkedList.h:300-326 | reversing twice is the identity |
| ListSpec.DeleteUndoesInsert | webServer/include/Containers/LinkedList.h:271-413 | deleteNth undoes insertAtNth on the items, and on the count only when n is not 1 |
| ListSpec.PopUndoesInsert | webServer/include/Containers/LinkedList.h:250-455 | popFront undoes insertAtStart and returns the item under a new key |
| ListSpec.BackUndoesEnd | webServer/include/Containers/LinkedList.h:223-502 | deleteBack undoes insertAtEnd, and so does popBack behind two items or more |
| ListSpec.FrontUndoesStart | webServer/include/Containers/LinkedList.h:250-468 | deleteFront undoes insertAtStart, whose item front shows |
| ListSpec.EndAndFrontCommute | webServer/include/Containers/LinkedList.h:223-455 | on a list that is not empty insertAtEnd and popFront do not meet: first in, first out |
| ListSpec.ReverseTurnsRound | webServer/include/Containers/LinkedList.h:223-326 | reversing turns an insertion at the start into one at the end |
| ListSpec.SearchFindsInserted | webServer/include/Containers/LinkedList.h:271-519 | search finds what was inserted under a fresh key, and under other keys what it found before |
| ListSpec.KeyUndoesInsert | webServer/include/Containers/LinkedList.h:271-438 | deleteByKey undoes an insertion under a fresh key behind the head |
| ListSpec.PopBackOfFew | webServer/include/Containers/LinkedList.h:471-502 | on one or two items popBack empties the list and returns the default item |
| ListSpec.CallsThatKeepItems | webServer/include/Containers/LinkedList.h:271-519 | deleteNth at 0 and past the end, insertAtNth out of range, deleteByKey of an absent key, front, search and deletions on an empty list leave the items |
| ListSpec.CounterDrift | webServer/include/Containers/LinkedList.h:381-560 | after any run of calls the count is the length plus the tally of deleteNth(1), popBack at two items and deleteNth past the end, modulo 2^32 |
| ListSpec.LostExactly | webServer/include/Containers/LinkedList.h:271-502 | after any run of calls the nodes lost are one for each popBack on two items and one for each insertAtNth out of range, since the start |
| ListSpec.DriftHappens | webServer/include/Containers/LinkedList.h:271-502 | concrete runs of each of the three kinds of call part count and length, and each of the two kinds loses a node |
| ListSpec.QueueCountIsExact | webServer/include/Containers/Queue.h:29-36 | runs of queue calls only have an exact count modulo 2^32 and lose no node |
| ListSpec.CopyOf | webServer/include/Containers/LinkedList.h:66-108 | a copied node has the bytes and length of the original, a closing NUL and a key of its own |
| LinkedList.SingleLLNode.Assign | webServer/include/Containers/LinkedList.h:88-108 | assignment copies the value under a new key and forgets the link |
| LinkedList.SingleLinkedList.InsertAtEnd | webServer/include/Containers/LinkedList.h:223-247 | the pointer code appends a copy and keeps the chain |
| LinkedList.SingleLinkedList.InsertAtStart | webServer/include/Containers/LinkedList.h:250-268 | the pointer code prepends a copy and keeps the chain |
| LinkedList.SingleLinkedList.InsertAtNth | webServer/include/Containers/LinkedList.h:271-297 | the pointer code inserts before the index that unsigned arithmetic gives, or fails and loses the new node |
| LinkedList.SingleLinkedList.Reverse | webServer/include/Containers/LinkedList.h:300-326 | turning the links round in place reverses the items |
| LinkedList.SingleLinkedList.DeleteFront | webServer/include/Containers/LinkedList.h:329-345 | removes and deletes the first node, if any |
| LinkedList.SingleLinkedList.DeleteBack | webServer/include/Containers/LinkedList.h:348-378 | removes and deletes the last node, if any |
| LinkedList.SingleLinkedList.DeleteNth | webServer/include/Containers/LinkedList.h:381-413 | removes the n-th node; position 1 keeps the count and a position past the end drops it |
| LinkedList.SingleLinkedList.DeleteByKey | webServer/include/Containers/LinkedList.h:416-438 | removes the first node with the key, which must not be the head |
| LinkedList.SingleLinkedList.PopFront | webServer/include/Containers/LinkedList.h:441-455 | removes the first node and returns its copy, or the default item |
| LinkedList.SingleLinkedList.PopBack | webServer/include/Containers/LinkedList.h:471-502 | with three or more items removes and returns the last; with two drops both, losing a node |
| LinkedList.SingleLinkedList.Front | webServer/include/Containers/LinkedList.h:458-468 | returns a copy of the first item, or the default item |
| LinkedList.SingleLinkedList.Search | webServer/include/Containers/LinkedList.h:505-519 | returns a copy of the first item with the key, or the default item |
| LinkedList.SingleLinkedList.Clear | webServer/include/Containers/LinkedList.h:543-560 | deletes every reachable node once and resets the count |
| EventMessage.PayloadSurvives | webServer/include/Interfaces/EventMessageInterface.h:35-66 | a payload that fits comes back zero padded and with its length from packing and any number of node copies |
| EventMessage.MessagesFit | webServer/include/CommonClasses/CommonDefinitions.h:25-29 | the log, database and connection structs fit in an event |
| EventMessage.LogTextSurvives | webServer/src/Interfaces/LogWriterInterface.cpp:35-45 | a log text shorter than STRING_SIZE is read back up to its first NUL, whatever the buffer held |
| EventMessage.LogLengthSurvives | webServer/src/Interfaces/LogWriterInterface.cpp:35-45 | the length stored beside a log text is read back, also behind the copy into the pending queue |
| EventMessage.PendingCopySurvives | webServer/src/Modules/Logger/RemoteWriter.cpp:135-140 | the copy into the pending queue is the same message byte for byte |
| EventMessage.PendingKeepsText | webServer/src/Modules/Logger/RemoteWriter.cpp:135-140 | any event whose text fits keeps its text through the copy into the pending queue |
| EventMessage.QuerySurvives | webServer/src/Modules/HTTPService/HTTPSession.cpp:52-60 | a DML statement is read back up to its first NUL, with its table and its type, whatever the buffers held |
| EventMessage.CopiesCarryTheSame | webServer/include/Containers/LinkedList.h:66-131 | a packed node carries the same event through any chain of copies |
| EventQueue.EventMessageInterface.SetMessage | webServer/include/Interfaces/EventMessageInterface.h:60-66 | the object holds the zero-padded payload and its packed node |
| EventQueue.EventQueueInterface.PushEvent | webServer/include/Interfaces/EventQueueInterface.h:22-26 | the queue gains the event carried by the message's node at its end |
| EventQueue.EventQueueInterface.GetEvent | webServer/include/Modules/EventMessage/LoggerEventQueue.h:16-23 | on a non-empty queue the oldest event is removed and unpacked from a node of exactly its size |
| EventQueue.EventQueueInterface.Front | webServer/include/Modules/EventMessage/LoggerEventQueue.h:25-33 | the oldest event is unpacked and stays |
| EventQueue.EventQueueInterface.GetQueueLength | webServer/include/Interfaces/EventQueueInterface.h:15-18 | the number of events, modulo 2^32 |
| MySQLConnector.BatchBound | webServer/src/Modules/Database/MySQL/MySQLConnector.cpp:361-371 | in every reachable state the uncommitted rows are at most 1000 per batch commit of the run that threw since its last successful commit, plus the counter modulo 1000, over 32-bit wrap |
| MySQLConnector.FailedExactly | webServer/src/Modules/Database/MySQL/MySQLConnector.cpp:369-382 | the number of failures that a state carries is the number of batch-commit steps of the run that threw since its last successful commit |
| MySQLConnector.FewerThanABatch | webServer/src/Modules/Database/MySQL/MySQLConnector.cpp:194-214 | with no failing batch commit fewer than 1000 rows are uncommitted, and the counter is positive whenever one is, so the idle committer's test passes |
| MySQLConnector.DurablePrefix | webServer/src/Modules/Database/MySQL/MySQLConnector.cpp:164-191 | durable rows are a prefix of the executed rows, which are an in-order subsequence of the enqueued messages; after the destructor all are durable |
| MySQLConnector.DurableExactly | webServer/src/Modules/Database/MySQL/MySQLConnector.cpp:361-371 | what is durable is what had been executed at the last step that commits: a row becomes durable there and nowhere else |
| MySQLConnector.CommitsExactly | webServer/src/Modules/Database/MySQL/MySQLConnector.cpp:29-371 | behind a batch, idle or final commit that succeeds every executed row is durable, and no other step makes a row durable |
| MySQLConnector.FullBatches | webServer/src/Modules/Database/MySQL/MySQLConnector.cpp:369-370 | while the DB thread alone commits and no commit throws, exactly the full thousands of the executed rows are durable |
| MySQLConnector.ExecutedExactly | webServer/src/Modules/Database/MySQL/MySQLConnector.cpp:361-371 | a step executes the oldest message exactly when neither prepare nor execute throws |
| MySQLConnector.CounterExactly | webServer/src/Modules/Database/MySQL/MySQLConnector.cpp:366-367 | the counter is the number of executed rows modulo 2^32 |
| MySQLConnector.DurableOnlyGrows | webServer/src/Modules/Database/MySQL/MySQLConnector.cpp:361-371 | nothing durable and nothing executed is ever lost or changed |
| MySQLConnector.SafeDequeue | webServer/src/Modules/Database/MySQL/MySQLConnector.cpp:173-188 | whatever sessions push meanwhile, the DB thread never pops an empty queue and takes the oldest message |
| MySQLConnector.CrashExactlyUnderCommit | webServer/src/Modules/Database/MySQL/MySQLConnector.cpp:24-46 | when no commit throws, the process has ended abnormally or is bound to exactly when the destructor ran between the idle committer's check and its commit |
| MySQLConnector.CrashUnderCommitHappens | webServer/src/Modules/Database/MySQL/MySQLConnector.cpp:24-214 | a concrete run does so |
| MySQLConnector.TerminatedExactly | webServer/src/Modules/Database/MySQL/MySQLConnector.cpp:29-208 | the process ends abnormally exactly at a commit outside any try block that throws or finds no connection |
| MySQLConnector.CommitsOnlyWhenIdle | webServer/src/Modules/Database/MySQL/MySQLConnector.cpp:203-208 | the idle committer goes to commit only from a test that found the connection idle and a row counted |
| MySQLConnector.LoopsRun | webServer/src/Modules/Database/MySQL/MySQLConnector.cpp:173-213 | the first look of each loop behind the close flag is its last; before it a timeout on a filled queue goes on to execute and an idle test with a row counted goes on to commit |
| MySQLConnector.MySQLConnector.PushEvent | webServer/src/Modules/HTTPService/HTTPSession.cpp:52-60 | a session's statement joins the queue; this is the machine's enqueue step |
| MySQLConnector.MySQLConnector.ProcessDMLQuery | webServer/src/Modules/Database/MySQL/MySQLConnector.cpp:361-387 | the server runs the statement and the object makes the machine's DML step; SUCCESS exactly when no call of it threw |
| MySQLConnector.MySQLConnector.WaitTimesOut | webServer/src/Modules/Database/MySQL/MySQLConnector.cpp:173-182 | a timeout of the DB thread is the machine's timeout step; a queue of a nonzero multiple of 2^32 messages reads as empty |
| MySQLConnector.MySQLConnector.ExecuteOldest | webServer/src/Modules/Database/MySQL/MySQLConnector.cpp:184-188 | whatever sessions pushed since, the queue is not empty, the server gets the very statement that its oldest message was enqueued with, and this is the machine's execute step |
| MySQLConnector.MySQLConnector.CommitIdle | webServer/src/Modules/Database/MySQL/MySQLConnector.cpp:207-209 | the idle committer's commit, on an open or closed connection, throwing or not, is the machine's step |
| MySQLConnector.MySQLConnector.Finalize | webServer/src/Modules/Database/MySQL/MySQLConnector.cpp:29-45 | the destructor's commit, throwing or not, is the machine's step |
| TcpPipeline.Pipeline | webServer/src/Modules/TCPService/TCPServer.cpp:287-421 | each accepted connection is at all times in exactly one of handler, queue, being served, closed; serving and closing follow push order |
| TcpPipeline.TimeoutsServe | webServer/src/Modules/TCPService/TCPServer.cpp:386-418 | k timeouts before the close flag take at least the first min(k, n) of n queued connections |
| TcpPipeline.WorkerEndsExactly | webServer/src/Modules/TCPService/TCPServer.cpp:395-401 | the worker ends at its first timeout behind the close flag, and nowhere else |
| TcpServer.SendMessage | webServer/src/Modules/TCPService/TCPServer.cpp:311-334 | the system accepts the prefix that its answers add up to, all of it exactly when no call failed, and only an answer that is no count fails |
| TcpServer.ReceivedIs | webServer/src/Modules/TCPService/TCPServer.cpp:336-357 | a text without NUL is received as it is, up to a NUL behind it, and a failed call receives nothing |
| TcpServer.TCPServer.Accept | webServer/src/Modules/TCPService/TCPServer.cpp:266-282 | a new connection waits in a handler with its socket; this is the pipeline's accept step |
| TcpServer.TCPServer.HandleConnection | webServer/src/Modules/TCPService/TCPServer.cpp:287-304 | any waiting handler pushes its own socket and makes the pipeline's push step |
| TcpServer.TCPServer.TakeOldest | webServer/src/Modules/TCPService/TCPServer.cpp:397-406 | the worker ends on the close flag, and otherwise takes the socket of the oldest queued connection, if any |
| TcpServer.TCPServer.ProcessTimeout | webServer/src/Modules/TCPService/TCPServer.cpp:394-418 | the oldest queued connection gets a prefix, all of it unless a send failed, of the answer that the text it sent means, up to a NUL, and is closed; an answer that is an exception leaves it open |
| HttpParser.HttpParams.constructor | webServer/src/Modules/HTTPService/HTTPParams.cpp:10-36 | for every request each field holds the trimmed value of the first line that gives it, the body is the printable text of the body lines, method, URL and error are those the first lines decide, and the cookie is the given one or the generated id |
| HttpParser.HttpParams.ParseLines | webServer/src/Modules/HTTPService/HTTPParams.cpp:113-188 | the loop builds the declarative meaning of the lines |
| HttpParser.HttpParams.ParseRequestLine | webServer/src/Modules/HTTPService/HTTPParams.cpp:127-166 | methods named in the line and their URLs are offered in table order, first come kept; with none the request becomes GET /login, and no stored URL is overwritten |
| HttpParser.HttpParams.ReadUrl | webServer/src/Modules/HTTPService/HTTPParams.cpp:135-142 | the URL is the trimmed text behind the name's length, up to its last HTTP/ if it has one, without spaces; the substring is in range |
| HttpParser.HttpParams.ParseHeaderLine | webServer/src/Modules/HTTPService/HTTPParams.cpp:169-186 | a header line adds its trimmed value to the field it names, unless the field is present |
| HttpParser.HttpParams.GenerateCookieIfRequired | webServer/src/Modules/HTTPService/HTTPParams.cpp:17-36 | a session id is stored exactly when no cookie entry exists, even an empty one |
| HttpParser.HeaderOfMore | webServer/src/Modules/HTTPService/HTTPParams.cpp:171-185 | a further line changes a header only if it is the first to give it |
| HttpParser.MethodOfMore | webServer/src/Modules/HTTPService/HTTPParams.cpp:127-155 | the first request line alone decides the method and whether the request is bad |
| HttpParser.UrlOfMore | webServer/src/Modules/HTTPService/HTTPParams.cpp:143-163 | the first URL offered is kept, and a URL comes only with a method |
| CppString.RemoveSpacesKeeps | webServer/include/Modules/HTTPService/HTTPParams.h:61-64 | removeSpaces leaves out the spaces and keeps the rest in order |
| CppString.PrintableIsKept | webServer/include/Modules/HTTPService/HTTPParams.h:72-81 | removeSpecialCharacters keeps the characters from ' ' to '~' in order and leaves out every other one |
| HttpRequestLaws.BlanksAreIgnored | webServer/src/Modules/HTTPService/HTTPParams.cpp:122-124 | spaces and tabs around a line change nothing of what it means |
| HttpRequestLaws.TableIsNameOf | webServer/include/Modules/HTTPService/HTTPDefinitions.h:60-74 | the parser's table has exactly the thirteen names, each for its own field |
| HttpRequestLaws.HeaderIsFirstNamed | webServer/src/Modules/HTTPService/HTTPParams.cpp:171-185 | each header is the trimmed value of the first header line with its name |
| HttpRequestLaws.RequestLineRoundTrip | webServer/src/Modules/HTTPService/HTTPParams.cpp:122-146 | a printed request line that names one method gives back its method and URL for every iteration order of the table, whatever follows |
| HttpRequestLaws.FirstMethodWins | webServer/src/Modules/HTTPService/HTTPParams.cpp:129-133 | of several names in the line the first in iteration order wins |
| HttpRequestLaws.FallbackStays | webServer/src/Modules/HTTPService/HTTPParams.cpp:149-163 | a request that became invalid is GET /login whatever lines follow |
| HttpRequestLaws.HeaderHasNoNewline | webServer/src/Modules/HTTPService/HTTPParams.cpp:113-184 | no header value of a parsed request holds a newline |
| HttpRequestLaws.CookieHasNoNewline | webServer/src/Modules/HTTPService/HTTPParams.cpp:113-191 | the cookie of a parsed request holds no newline |
| HttpRequestLaws.HeaderLineRoundTrip | webServer/src/Modules/HTTPService/HTTPParams.cpp:122-184 | a printed header line gives the field of its name the trimmed value, for every name of the table |
| HttpRequestLaws.CookieEmptyExactly | webServer/src/Modules/HTTPService/HTTPParams.cpp:22-35 | the cookie is empty exactly when the first Cookie line has an empty value |
| HttpRequestLaws.EmptyCookieHappens | webServer/src/Modules/HTTPService/HTTPParams.cpp:22-184 | a concrete request is left with an empty cookie |
| HttpResponse.Framing | webServer/src/Modules/HTTPService/HTTPParams.cpp:54-62 | plain header lines, a decimal Content-Length, a blank line and a rest are framed by a client as built |
| HttpResponse.HeadEndsAfter | webServer/src/Modules/HTTPService/HTTPParams.cpp:54-62 | the first blank line of a response is where its header block ends |
| HttpResponse.GenerateLogin | webServer/src/Modules/HTTPService/HTTPParams.cpp:42-65 | with its placeholder present the client finds status 401 or 200 as the login was refused or not, the cookie line, and the page with exactly the declared length; without it the replace throws |
| HttpResponse.GenerateHomePage | webServer/src/Modules/HTTPService/HTTPParams.cpp:67-93 | the same for the home page with status 200 |
| HttpResponse.GenerateErrorResponse | webServer/src/Modules/HTTPService/HTTPParams.cpp:207-220 | the client finds the error status, the cookie line and two bytes more than declared |
| HttpResponse.GenerateCSSResponse | webServer/src/Modules/HTTPService/HTTPParams.cpp:222-256 | a style sheet that is found is framed exactly, with the cookie line; the 404 response is two header lines whose block never ends |
| HttpResponse.GenerateRedirect | webServer/src/Modules/HTTPService/HTTPParams.cpp:95-109 | the header block ends behind Location, so the cookie line is body |
| HttpResponse.GenerateFavicon | webServer/src/Modules/HTTPService/HTTPParams.cpp:195-205 | the client finds status 200, Connection: close and nothing behind the header block |
| HttpResponse.HeadInjective | webServer/src/Modules/HTTPService/HTTPParams.cpp:54-62 | a client reads the header lines of a response in one way |
| HttpResponse.FramedOnce | webServer/src/Modules/HTTPService/HTTPParams.cpp:54-62 | a client frames a response in one way: lines, declared length and body |
| HttpResponse.ReplacedExactly | webServer/src/Modules/HTTPService/HTTPParams.cpp:51-52 | of a text in which the placeholder first occurs behind `a`, the page is `a`, the replacement and the rest |
| HttpResponse.DecimalIs | webServer/src/Modules/HTTPService/HTTPParams.cpp:61 | lengths are printed in base ten, the highest digit first |
| HttpSession.SessionMapAgrees | webServer/src/Modules/HTTPService/HTTPSessionManager.cpp:31-85 | a cookie is in the map exactly when a request carrying it passed the token check and it was not removed since |
| HttpSession.OpenedIsMapped | webServer/src/Modules/HTTPService/HTTPSessionManager.cpp:74-83 | the session of a cookie is the one made by the first passing request since its last removal: its session id is the cookie, its user id the one drawn then and its host URL http:// and that request's host |
| HttpSession.SessionStays | webServer/src/Modules/HTTPService/HTTPSessionManager.cpp:74-84 | until removed a cookie keeps the same session object, user id and host |
| HttpSession.HttpSessionManager.ProcessHTTPMessage | webServer/src/Modules/HTTPService/HTTPSessionManager.cpp:47-85 | the object follows the map's history; a rejected token changes nothing |
| HttpSession.HttpSessionManager.RemoveSession | webServer/src/Modules/HTTPService/HTTPSessionManager.cpp:31-36 | the cookie is gone afterwards |
| HttpSession.HttpSessionManager.IsValidSession | webServer/src/Modules/HTTPService/HTTPSessionManager.cpp:38-45 | valid exactly for cookies in the map of the history |
| HttpLogin.OnlyPasswordThrows | webServer/src/Modules/HTTPService/HTTPSession.cpp:138-143 | of the calls of substr only the password's throws, exactly when there is no '&' |
| HttpLogin.LoginExactly | webServer/src/Modules/HTTPService/HTTPSession.cpp:128-149 | login throws exactly on a non-empty body without '&' and accepts exactly the described forms |
| HttpLogin.CrashExactly | webServer/src/Modules/HTTPService/HTTPSession.cpp:67-126 | the dispatch ends in an exception exactly for a POST to /login with a non-empty body without '&' |
| HttpLogin.PostLoginExactly | webServer/src/Modules/HTTPService/HTTPSession.cpp:115-126 | a POST to /login gets the home page exactly for a login form, and the refused login page exactly for the other bodies that do not throw |
| HttpLogin.CrashHappens | webServer/src/Modules/HTTPService/HTTPSession.cpp:115-143 | a concrete request is an exception for every iteration order of the table |
| HttpLogin.PrintedAnswered | webServer/src/Modules/HTTPService/HTTPSession.cpp:67-126 | a printed request is answered by its own method, URL and the body behind its first line |
| HttpLogin.InvalidGetsLogin | webServer/src/Modules/HTTPService/HTTPSession.cpp:83-96 | once some first lines name no method the request is answered with the login page, whatever lines follow |
| HttpService.Generate | webServer/src/Modules/HTTPService/HTTPSession.cpp:83-126 | each answer of the session gets the response, with the status and cookie lines, that its generator promises |
| HttpService.Handle | webServer/src/Modules/TCPService/TCPServer.cpp:412-413 | for every request text the response is the error page for a bad token and otherwise the answer that the text means, header lines and body, and the session map's history gains the request |
| HttpServiceLaws.NoResponseExactly | webServer/src/Modules/HTTPService/HTTPSessionManager.cpp:47-85 | an exception instead of a response exactly when the token check passes and the request is a bad login or its page has lost its placeholder |
| HttpServiceLaws.NoResponseHappens | webServer/src/Modules/HTTPService/HTTPSession.cpp:115-143 | a concrete request is one for every iteration order of the table |
| HttpServiceLaws.EmptyResponseExactly | webServer/src/Modules/HTTPService/HTTPSession.cpp:63-112 | an empty response exactly when the token check passes and the request is unknown; every other response starts with a status line that reaches the client |
| HttpServiceLaws.EmptyResponseHappens | webServer/src/Modules/HTTPService/HTTPSession.cpp:63-112 | a GET of an unknown path and a receive that got nothing are two such requests |
| HttpServiceLaws.CookieHandedOutExactly | webServer/src/Modules/HTTPService/HTTPParams.cpp:42-256 | the pages, the style sheets that are found and the error page hand a client the cookie of its own request and no other; no other response hands out any |
| HttpServiceLaws.WholeResponseExactly | webServer/src/Modules/HTTPService/HTTPParams.cpp:42-256 | a client finds exactly the declared number of bytes in the pages and the style sheets that are found, and in no other response |
| HttpServiceLaws.RedirectHappens | webServer/src/Modules/HTTPService/HTTPParams.cpp:95-109 | a concrete request is answered without a cookie and without a declared length |
| HttpServiceLaws.CookieComesBack | webServer/src/Modules/HTTPService/HTTPSessionManager.cpp:67-84 | a client that sends back the cookie it was handed is served by the same session object, user id and host, whatever others do in between short of removing the session |
| HttpAnswers.SeenByTheMap | webServer/src/Modules/HTTPService/HTTPSessionManager.cpp:50-69 | the session map sees the values of the first Authorization, Cookie and Host lines |
| HttpAnswers.HeaderIsFound | webServer/src/Modules/HTTPService/HTTPParams.cpp:171-185 | a header line as a client prints it is found under its name without the blanks around its value |
| HttpAnswers.UnknownNameChangesNothing | webServer/src/Modules/HTTPService/HTTPParams.cpp:181-185 | a line with a name outside the table changes no header |
| HttpAnswers.GetRoot | webServer/src/Modules/HTTPService/HTTPSession.cpp:89-92 | GET / finds status 301 and the login page of the session's host |
| HttpAnswers.GetRootFirstHost | webServer/src/Modules/HTTPService/HTTPSession.cpp:10-18 | that host is the one of the request that opened the session |
| HttpAnswers.GetLogin | webServer/src/Modules/HTTPService/HTTPSession.cpp:93-96 | GET /login finds status 200 and the login page without a message |
| HttpAnswers.GetHome | webServer/src/Modules/HTTPService/HTTPSession.cpp:97-100 | GET /home finds status 200 and the home page |
| HttpAnswers.GetFavicon | webServer/src/Modules/HTTPService/HTTPSession.cpp:101-104 | GET /favicon.ico finds status 200 and no body |
| HttpAnswers.GetStyleSheet | webServer/src/Modules/HTTPService/HTTPSession.cpp:105-108 | a GET of a URL with ".css" finds status 200 and the style sheet, or status 404 and no end of the header block |
| HttpAnswers.SheetOfName | webServer/src/Modules/HTTPService/HTTPParams.cpp:227-238 | the style sheet of "/" and a name is the file of that name |
| HttpAnswers.PostLoginForm | webServer/src/Modules/HTTPService/HTTPSession.cpp:119-123 | a login form posted to /login finds status 200 and the home page |
| HttpAnswers.PostOtherForm | webServer/src/Modules/HTTPService/HTTPSession.cpp:119-125 | another form that does not throw finds status 401 and the login page with its message |
| HttpAnswers.PostElsewhere | webServer/src/Modules/HTTPService/HTTPSession.cpp:115-126 | so does a POST to any other URL |
| HttpAnswers.OtherMethods | webServer/src/Modules/HTTPService/HTTPSession.cpp:67-80 | the other methods of the table find an empty response |
| HttpAnswers.UnknownToken | webServer/src/Modules/HTTPService/HTTPSessionManager.cpp:52-66 | an Authorization that is not stored finds status 401 and the error page |
| HttpAnswers.LoginHappens | webServer/src/Modules/HTTPService/HTTPSession.cpp:115-149 | a concrete form logs in and another is refused |
| HttpAnswers.LengthIsRead | webServer/src/Modules/HTTPService/HTTPParams.cpp:61 | of a framed response the client reads the length behind "Content-Length: " |

## Left out

- RemoteWriter.RemoteWriter.ProcessOne: on a live queue of a nonzero multiple of 2^32 messages, whose unsigned length reads 0, the object goes back to its wait while the state machine, which counts without bound, would pop.
- RemoteWriter.RemoteWriter.Drain: likewise ends on a pending queue of such a length.
- MySQLConnector.MySQLConnector.WaitTimesOut: on a queue of such a length the object goes on waiting while the state machine would hold on to it.
- TcpServer.TCPServer.ProcessTimeout: a receive that fills the whole buffer with no NUL in it makes the source read past the buffer; the model takes what was received.
- RemoteWriter.RemoteWriter.OtherThreads: stands for any steps of the other threads through its contract; its own body takes none.
- LinkedList.SingleLinkedList.DeleteNth: the signed index overflows on lists of more than 2^31 items, which C++ leaves undefined.
- Node buffers are values, so aliasing and release of `mData` are not modelled; nodes themselves are heap objects.
- The list's own mutex: every call is one step; the callers' mutexes are modelled.
- `processLogMessage`, the console and file writers: the same wake-up loop without a socket.
- The bytes of a message partly sent before an error, and the interleaving of heartbeat bytes with log bytes on one socket.
- DDL and DQL statements, what SQL text means, and rows lost with a broken connection: sessions enqueue DML only, and the server is a list of rows with a durable prefix.
- The timing of retries, idle periods and poll timeouts: any step may happen at any time its guards allow.
- `select`, `poll` and `epoll` loops beyond an accept step; socket descriptors reused by the system after close.
- JSON, base64, session id generation, logging levels, `ConsoleMain` singletons, start-up and the destruction of objects whose detached threads still run.

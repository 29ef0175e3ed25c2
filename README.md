# A verified model of the epoll TCP/UDP server's sequential core

The server listens on one port for both stream (TCP) and datagram (UDP)
clients. It multiplexes all I/O through one `epoll` loop and hands message
processing to a worker pool. This project models, in Dafny, the server state
that sits between the system calls in `Server/server.cpp`, and proves what that
code promises about it:

- **Framing** (`framing.dfy`). An inbound read becomes message text in three
  steps. Only the first `received` bytes count, because the handler writes a
  NUL at that index. Those bytes become a C++ string, which stops at the
  first NUL. Then at most one trailing `'\n'` is removed, and after that at
  most one trailing `'\r'`.
- **Decimal** (`decimal.dfy`). `std::to_string` on the unsigned counters, with
  its inverse.
- **Protocol** (`protocol.dfy`). `processMessage` as a pure function of the
  message, the clock text and the stats text. It returns a reply plus a
  "shutdown requested" flag. `getStats` is modelled exactly. `ParseStats`
  reads a stats reply back, and is proved to be its exact inverse.
- **Registry** (`registry.dfy`). The server's state as a value: the `clients_`
  map from descriptor to `ClientInfo`, `total_clients_`, `current_clients_`,
  `running_`, `shutdown_`, and the tasks handed to the pool. Each handler is a
  transition on this state, taking the system-call results as parameters. The
  invariant is: registry size ≤ current ≤ total, and every entry is filed
  under its own descriptor.
- **Dispatch** (`dispatch.dfy`). The `run` loop. Each ready descriptor is
  routed in a fixed order: listener, then datagram socket, then wake-up
  descriptor, then client. A wake-up returns immediately, so the rest of the
  batch is never handled.
- **ServerCore** (`server.dfy`). The `Server` class. Its fields are the ones
  the source updates in place. Each method is proved to move the object to
  the state that the matching Registry or Dispatch function describes. Each
  method also keeps the invariant.

The counters are `size_t`. They are modelled as `Size` (naturals below 2^64)
with wrapping increment and decrement. The invariant lemmas for accept
therefore require that the total count cannot wrap.

Behaviour of the code worth knowing:

- `processMessage` returns an empty reply for empty input and for unknown
  commands. The workers still send it: a zero-length `send`, and for UDP a
  zero-length datagram. See `Registry.RunTaskRepliesToOrigin`.
- `stop` empties the registry but leaves `current_clients_` unchanged. After a
  stop, the `/stats` count is therefore not the registry size. See
  `Registry.StopBreaksCountsMatch`.
- One readiness event on the listener accepts one connection. It does not
  accept until `accept` would block.
- `Server::stop` never stops the worker pool, so enqueueing still appends a
  task after a stop.
- `stop` is idempotent on the modelled state (`Registry.StopIdempotent`). It
  closes the listening descriptors again on a second call; see Left out.

## Model

| member | source | states |
|---|---|---|
| Framing.ReadBytes | Server/server.cpp:299-306 | The bytes before the NUL written at `buffer[received]`: a prefix of what arrived, never more than `received` or MAX_READ = 1023 bytes, and exactly the arrived bytes when `recv` kept its contract |
| Framing.CString | Server/server.cpp:306-307 | The string built from the buffer is the longest NUL-free prefix of the bytes read: a prefix, with no NUL, ending at a NUL or at the end |
| Framing.Trim | Server/server.cpp:280-287 | The trim yields a prefix of its input that is at most two characters shorter. It changes the input exactly when the input ends in `'\n'` or `'\r'` |
| Framing.TrimRemovesTrimmedSuffix | Server/server.cpp:308-315 | The trim removes exactly `"\r\n"`, `"\n"`, `"\r"` or nothing, chosen by how the input ends (independent suffix-based definition) |
| Framing.TrimExamples | Server/server.cpp:280-287 | `"ab\r\n"` becomes `"ab"`, `"ab\n\r"` becomes `"ab\n"`, and `"ab\n\n"` loses only one newline |
| Framing.Inbound | Server/server.cpp:299-315 | The message text of a read is a prefix of the bytes that arrived, at most `received` and at most 1023 characters long, and holds no NUL |
| Framing.InboundStopsAtCount | Server/server.cpp:278-279 | Bytes beyond the count `recv` returned never reach the message (`"abc"` read with count 1 gives `"a"`), and an embedded NUL ends it |
| Framing.InboundLine | Server/server.cpp:299-315 | A NUL-free line sent with its `'\n'` and read in one piece becomes exactly the line |
| Decimal.ToString | Server/server.cpp:425-426 | `std::to_string` of a counter is canonical decimal (digits, no leading zero) and denotes exactly that counter |
| Decimal.ToStringOfValue | Server/server.cpp:425-426 | Every canonical digit string is the `to_string` of its value; with ToString this makes printing a bijection |
| Protocol.Process | Server/server.cpp:377-410 | Every reply is empty, the message, the clock text or the stats text, and a shutdown request has an empty reply; each case is pinned down by the lemmas below |
| Protocol.ProcessEmpty | Server/server.cpp:379-382 | An empty message yields an empty reply and no shutdown |
| Protocol.ProcessEcho | Server/server.cpp:405-408 | A non-empty message not starting with '/' is echoed unchanged, with no shutdown |
| Protocol.ProcessUnknown | Server/server.cpp:383-409 | A '/' message that is not exactly `/time`, `/stats` or `/shutdown` yields an empty reply and no shutdown |
| Protocol.ProcessCommands | Server/server.cpp:385-399 | `/time` yields the clock text, `/stats` the stats text, `/shutdown` an empty reply that requests shutdown; `"/time "` and `"/Stats"` are unknown |
| Protocol.ProcessShutdownIff | Server/server.cpp:393-399 | Shutdown is requested if and only if the message is exactly `/shutdown`, and then the reply is empty |
| Protocol.ProcessReplyOrigin | Server/server.cpp:377-410 | Every reply is empty, the message itself (when not a command), the clock (for `/time`) or the stats (for `/stats`) |
| Protocol.Stats | Server/server.cpp:422-427 | The stats text starts with `"Total clients: "`; Protocol.StatsRoundTrip and Protocol.StatsInverse show it names exactly both counters |
| Protocol.StatsRoundTrip | Server/server.cpp:422-427 | Reading back the `getStats` text gives exactly the total and current counts it was made from |
| Protocol.ParseStatsSound | Server/server.cpp:422-427 | Any text that reads back as a pair of counts is the `getStats` text of that pair |
| Protocol.StatsInverse | Server/server.cpp:422-427 | ParseStats(s) is Some((t, c)) if and only if s is the stats text of t and c |
| Registry.Accept | Server/server.cpp:225-261 | Accept touches only the registry and the counters, can add only the accepted descriptor, and changes nothing unless both `accept` and the registration succeed; see the Accept lemmas below |
| Registry.CloseClient | Server/server.cpp:429-442 | closeClient removes exactly that descriptor's entry and keeps the total, the flags and the queued tasks; see the closeClient lemmas below |
| Registry.Stop | Server/server.cpp:336-347 | stop leaves no registered client and running false, and keeps both counters |
| Registry.TcpRead | Server/server.cpp:296-334 | A client read queues at most one task, keeps the earlier tasks, and never changes the total or the flags; Registry.TcpReadOutcome gives each case |
| Registry.UdpRead | Server/server.cpp:263-294 | A datagram read queues at most one task and changes nothing else; Registry.UdpReadOutcome gives each case |
| Registry.Execute | Server/server.cpp:377-410 | Processing a message never changes the counters or the queued tasks, and whenever it changes the state its reply is empty |
| Registry.RunTask | Server/server.cpp:361-375 | A worker's new state and reply text are those of processing the task's message; Registry.TcpReadThenRun ties the reply back to the read that queued the task |
| Registry.AcceptFailureIsNoop | Server/server.cpp:231-246 | If `accept` returns -1 or the epoll registration fails, the registry, counters, flags and tasks are unchanged |
| Registry.AcceptRegisters | Server/server.cpp:248-255 | A successful accept files the descriptor under itself with its address, replacing any entry, leaves every other entry alone, and adds exactly 1 to total and current |
| Registry.AcceptPreservesInv | Server/server.cpp:225-261 | Accept keeps registry size ≤ current ≤ total and entries keyed by their own descriptor |
| Registry.CloseClientRemoves | Server/server.cpp:429-442 | For a registered descriptor only that entry is removed; current drops by 1 and total is kept |
| Registry.CloseClientAbsentIsNoop | Server/server.cpp:432-434 | closeClient on an unregistered descriptor changes nothing |
| Registry.CloseClientPreservesInv | Server/server.cpp:429-442 | closeClient keeps the invariant |
| Registry.StopEmptiesRegistry | Server/server.cpp:339-347 | stop leaves the registry empty and running false, and keeps both counters, the shutdown flag and the queued tasks |
| Registry.StopPreservesInv | Server/server.cpp:336-347 | stop keeps the invariant |
| Registry.StopIdempotent | Server/server.cpp:336-347 | A second stop leaves the modelled state as the first left it |
| Registry.TcpReadOutcome | Server/server.cpp:296-334 | A client read of ≤ 0 bytes is closeClient and queues nothing. A read on an unregistered descriptor changes nothing. Any other read queues exactly one reply task, carrying the trimmed message and the stored peer address |
| Registry.TcpReadMessageBound | Server/server.cpp:299-307 | A queued client message holds at most `received` and at most BUFFER_SIZE_-1 = 1023 characters, and no NUL, for every input |
| Registry.TcpReadPreservesInv | Server/server.cpp:296-334 | A client read keeps the invariant |
| Registry.UdpReadOutcome | Server/server.cpp:263-294 | A datagram read of ≤ 0 bytes changes nothing; otherwise exactly one reply task to the sender is queued, carrying the trimmed message |
| Registry.UdpReadMessageBound | Server/server.cpp:270-279 | A queued datagram message holds at most `received` and at most 1023 characters, and no NUL, for every input |
| Registry.UdpReadPreservesInv | Server/server.cpp:263-294 | A datagram read keeps the invariant |
| Registry.ExecuteChangesStateOnlyOnShutdown | Server/server.cpp:393-399 | Running a message changes no state unless it is `/shutdown`. That one sets shutdown, clears running, empties the registry, keeps the counters and replies with empty text |
| Registry.ExecuteStats | Server/server.cpp:389-392 | The `/stats` reply reads back as the total and current counts at the time the task runs |
| Registry.ExecutePreservesInv | Server/server.cpp:377-410 | Processing any message keeps the invariant |
| Registry.RunTaskRepliesToOrigin | Server/server.cpp:361-375 | A stream task's reply is sent on its connection, and a datagram task's reply to its sender, even when the reply is empty |
| Registry.TcpReadThenRun | Server/server.cpp:329-333 | A task queued by a client read, whenever it runs, sends the processed read text back on that same connection |
| Registry.UdpReadThenRun | Server/server.cpp:289-293 | A task queued by a datagram read, whenever it runs, sends the processed read text back to that sender |
| Registry.ReadLineThenRun | Server/server.cpp:296-334 | A whole line read on a registered connection and then run yields the processing of the line without its newline, sent on that connection |
| Registry.EchoLine | Server/server.cpp:405-408 | `"hello\n"` on a registered connection is answered there with `"hello"`, and the state is unchanged |
| Registry.StatsLine | Server/server.cpp:389-392 | `"/stats\n"` is answered with the stats text of the counters as they are |
| Registry.ShutdownLine | Server/server.cpp:393-399 | `"/shutdown\n"` is answered with empty text, sets shutdown and stops the server |
| Registry.StreamSession | Server/server.cpp:225-442 | One client connects and sends `hello`, `/stats` and `/shutdown`: the replies are `"hello"`, the stats text of 1 total and 1 current, and empty text, and the server ends stopped with an empty registry |
| Registry.AcceptFreshKeepsCountsMatch | Server/server.cpp:251-255 | Accepting a descriptor not yet registered keeps current equal to the registry size |
| Registry.CloseClientKeepsCountsMatch | Server/server.cpp:434-438 | closeClient keeps current equal to the registry size |
| Registry.StopBreaksCountsMatch | Server/server.cpp:339-347 | After one accept, current equals the registry size; after stop it is still 1 while the registry is empty |
| Registry.ConnectAllCounts | Server/server.cpp:251-255 | N successful accepts of distinct fresh descriptors add N to total, current and registry size, and register every one |
| Registry.CloseAllCounts | Server/server.cpp:437-438 | Closing M distinct registered descriptors removes M from current and the registry size, and keeps total |
| Registry.ConnectThenClose | Server/server.cpp:225-261 | From a started server, N accepts then M closes give total N and current N − M |
| Registry.ConnectAllPreservesInv | Server/server.cpp:225-261 | Any sequence of successful accepts keeps the invariant while total cannot wrap |
| Dispatch.Classify | Server/server.cpp:205-220 | Only the wake-up descriptor is classified as a wake-up, and a client action names the descriptor that fired; Dispatch.ClassifyPriority gives the full order |
| Dispatch.Actions | Server/server.cpp:203-221 | The loop never takes more actions than the batch has events; see Dispatch.ActionsFollowEvents |
| Dispatch.Handle | Server/server.cpp:205-220 | No handler changes running or shutdown, and handlers only append tasks |
| Dispatch.Batch | Server/server.cpp:203-221 | A batch never changes running or shutdown; see Dispatch.BatchIgnoresAfterWake and Dispatch.BatchPreservesInv |
| Dispatch.Run | Server/server.cpp:185-223 | The loop never changes the shutdown flag, and it exits because of the running flag only when running is false; see Dispatch.RunNotRunningIff |
| Dispatch.BatchStep | Server/server.cpp:203-221 | One turn of the loop: the event's handler followed by the rest of the batch, unless the event is the wake-up, which ends the batch |
| Dispatch.ClassifyPriority | Server/server.cpp:205-220 | Routing priority is listener, then datagram socket, then wake-up descriptor, then client connection |
| Dispatch.ActionsFollowEvents | Server/server.cpp:203-221 | Events are handled in batch order, each by its classification; a wake-up can only be the last action |
| Dispatch.ActionsStopAtFirstWake | Server/server.cpp:213-216 | When the first wake-up is at position k, exactly k+1 actions are taken and the last is the wake-up |
| Dispatch.ActionsWithoutWake | Server/server.cpp:203-221 | A batch without the wake-up descriptor is handled in full |
| Dispatch.WokenIffWakeAction | Server/server.cpp:213-216 | The loop takes a wake-up action if and only if the batch contains the wake-up descriptor |
| Dispatch.BatchIgnoresAfterWake | Server/server.cpp:213-216 | Events after the first wake-up have no effect on the state |
| Dispatch.BatchPreservesInv | Server/server.cpp:203-221 | Handling a batch keeps the invariant while total cannot wrap |
| Dispatch.BatchMessagesBounded | Server/server.cpp:263-334 | Every message a batch queues holds at most 1023 characters and no NUL |
| Dispatch.BatchKeepsFlags | Server/server.cpp:203-221 | The handlers never change running or shutdown, and only ever append tasks |
| Dispatch.RunNotRunningIff | Server/server.cpp:188-222 | `run` returns because running is false exactly when running was false on entry, and the loop never changes running |
| Dispatch.RunPreservesInv | Server/server.cpp:185-223 | The whole loop keeps the invariant while total cannot wrap |
| Dispatch.RunMessagesBounded | Server/server.cpp:185-223 | Every message the whole loop queues holds at most 1023 characters and no NUL |
| Dispatch.RunWokenUpHasWake | Server/server.cpp:213-216 | A wake-up exit means some batch contained the wake-up descriptor |
| ServerCore.Server.constructor | Server/server.cpp:18-20 | The object starts with an empty registry, zero counters, running set and shutdown clear |
| ServerCore.Server.HandleTcpConnection | Server/server.cpp:225-261 | The new state is Registry.Accept of the old; the invariant is kept while total cannot wrap |
| ServerCore.Server.HandleUdpMessage | Server/server.cpp:263-294 | The new state is Registry.UdpRead of the old; the invariant is kept |
| ServerCore.Server.HandleTcpMessage | Server/server.cpp:296-334 | The new state is Registry.TcpRead of the old; the invariant is kept |
| ServerCore.Server.CloseClient | Server/server.cpp:429-442 | The new state is Registry.CloseClient of the old; the invariant is kept |
| ServerCore.Server.Stop | Server/server.cpp:336-347 | Closes exactly the registered descriptors; the new state is Registry.Stop of the old; the invariant is kept |
| ServerCore.Server.ProcessMessage | Server/server.cpp:377-410 | Reply and new state are Registry.Execute of the message and old state; `/shutdown` sets shutdown and then calls Stop |
| ServerCore.Server.RunTask | Server/server.cpp:361-375 | Reply destination and new state are Registry.RunTask of the task and old state |
| ServerCore.Server.HandleEvent | Server/server.cpp:205-220 | The action is the classification of the descriptor, and the new state is that handler's transition; the invariant is kept while total cannot wrap |
| ServerCore.Server.HandleBatch | Server/server.cpp:203-221 | The actions are Dispatch.Actions and the state is Dispatch.Batch of the batch; handling stops at the first wake-up |
| ServerCore.Server.Run | Server/server.cpp:185-223 | The exit reason and final state are Dispatch.Run over the successive wait outcomes; the invariant is kept |
| ServerCore.Server.Finalize | Server/server.cpp:176-183 | The destructor calls stop only when `/shutdown` has not already set the shutdown flag; the invariant is kept |

## Left out

- `start` (Server/server.cpp:22-174): socket, `setsockopt`, `bind`, `fcntl`, `epoll_create1`, `epoll_ctl`, `eventfd` and `listen` are operating-system calls. The model starts from the state a successful start leaves, with the three descriptors as constructor parameters.
- The `listen(socket_tcp_, MAX_EVENTS_ == -1)` call (Server/server.cpp:163) passes a comparison result (0) as the backlog. It is a system-call argument and is not modelled.
- `getCurrentTime` (Server/server.cpp:412-420) reads the clock through `time`, `localtime_r` and `strftime`. Its formatted text is a parameter (`clock`).
- The worker pool (`Server/threadpool.cpp`, `Server/threadpool.h`) is condition-variable concurrency. Enqueueing is modelled as appending to `pending`; which worker runs which task, and when, is not modelled. A worker also returns on the pool's stop flag while tasks remain queued.
- `main.cpp`: signal registration, `atoi` of the arguments and `hardware_concurrency`. A signal clearing the running flag from outside the loop is not modelled.
- Atomics and `clients_mutex_`: the model is one sequential interleaving, so `stop` called from a worker while the loop runs is not modelled.
- `stop` writing the wake-up descriptor and closing the listening sockets, the multiplexer and the wake-up descriptor (Server/server.cpp:348-358). A second `stop` closes those descriptors again, because it never resets them to -1; the model claims idempotence only of its state.
- The `epoll_ctl` deregistration and `close` in `closeClient`, the `close` of a descriptor whose registration failed, and the `send`/`sendto` results are OS calls. The model records only which descriptors `stop` closes and where a reply is sent.
- `addr_len` of datagram senders, and the console logging.
- The message text is modelled as characters. Bytes are not interpreted.
- A read count larger than the bytes given, or than the 1023 bytes asked for, cannot come from `recv`; `Framing.ReadBytes` then takes what it can, at most 1023 bytes.
- Registry.AcceptPreservesInv: stated only while the total count is below 2^64 − 1. Past that point the 64-bit total wraps to 0, and current ≤ total no longer holds.
- Dispatch.BatchPreservesInv: stated only while the total count plus the batch length stays below 2^64, for the same wrap-around.
- Dispatch.RunPreservesInv: stated only while the total count plus 64 per wait stays below 2^64, for the same wrap-around.
- Registry.ConnectAllPreservesInv: stated only while the total count plus the number of connections stays below 2^64, for the same wrap-around.
- ServerCore.Server.HandleTcpConnection: its Valid() postcondition is stated only while the total count is below 2^64 − 1.
- ServerCore.Server.HandleEvent: its Valid() postcondition is stated only while the total count is below 2^64 − 1.
- ServerCore.Server.HandleBatch: its Valid() postcondition is stated only while the total count plus the batch length stays below 2^64.
- ServerCore.Server.Run: its Valid() postcondition is stated only while the total count plus 64 per wait stays below 2^64.
- ServerCore.Server.Run: the wait outcomes are a finite sequence. When they run out while the server is still running, the model returns `Blocked`, where the real loop would wait forever.

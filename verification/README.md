# Chat server verification

Dafny 4.11 proofs about an epoll chat server (`src/`) and the parts of the logging library shipped with it
(`include/spdlog/`) that carry a protocol. `dafny verify dfyconfig.toml` checks the whole project.

## What is modelled

**The chat server.** Clients type lines; a line is a nickname, a room password or a command, depending on the
client's state. Rooms are created by a two-phase `/join` (ask for a password, then receive it in a later line),
counted, and erased when the counter reaches zero. `ChatServer.dfy` has the objects `Client`, `Room` and
`ChatServer`, which change their fields and maps in place, with the source's loops over the maps in an arbitrary
order. Every method is tied to a function on values in `ChatModel.dfy`. The server object carries, as ghost state, the
run of events it has made so far, and `Valid()` says that the heap is the last state of that run; so every theorem
about runs is a theorem about the heap (`ChatServer.ChatServer.HeapInvariant`).

* `ChatInvariant.dfy`: what every event keeps. Counters equal the number of members, there are no ghost rooms, no
  client points at a missing room, the lobby is permanent and open, a pending join never targets the present room, a
  client is in a room exactly once it has a nickname, and `want_write` holds exactly while output is pending.
* `ChatReference.dfy`: a server without counters, in which a room exists if and only if it is the lobby or somebody is
  in it. The real server simulates it step by step, output included.
* `ChatRuns.dfy`: whole runs. Where each password and each member of a room comes from, who hears what, and that output
  is a lossless FIFO.
* `Framing.dfy`, `Commands.dfy`, `Text.dfy`: bytes to lines, lines to commands, trimming.

**The asynchronous log queue.** `Ring.dfy` is the ring buffer with its spare slot, as a class over an array, refined
to a bounded sequence. `BlockingQueue.dfy` adds the three overflow policies and the history of any interleaving of
producers and consumers. `ThreadPool.dfy` is the worker pool with its shutdown protocol, as atomic guarded steps.

**The rotating file sink.** `RotatingModel.dfy` and `RotatingSink.dfy`: the size estimate, the rename chain over
numbered files, failing system calls included, over an abstract file system; `RotatingNames.dfy`: file names.

**The configuration file.** `ConfigModel.dfy`, `Config.dfy`.

The environment appears as parameters: a read is a list of chunks ending in "would block", end of stream or an error; a
write takes any number of bytes up to the buffer length, or fails; `epoll_ctl` may fail; hash maps are walked in any
order; file operations fail as a parameter says.

## What the proofs found

* A room can get a second password. A client that asked for a room while it was absent may complete the setup after
  somebody else has created it; its line then replaces the founder's password. `ChatRuns.SecondPassword` extends any run
  with two chatting clients to such a case, `ChatRuns.TwoPasswordsReached` reaches one from the start, and
  `ChatRuns.PasswordChangesIff` says exactly when a standing room's password changes.
* A pool whose queue has capacity 0 is accepted by the constructor but can never be destroyed: the blocking post of the
  first terminate message waits for ever. `ThreadPool.DeadlockFreeIff`: shutdown is deadlock-free if and only if the
  capacity is at least 1.
* The size bound of the rotating sink does not always hold. After a write that fails half-way, the bytes left behind
  are not counted, and a later message may overfill the file (`RotatingModel.PartialWriteBreaksBound`).
  `RotatingModel.SinkBoundedIff` gives the exact condition: a message written in full breaks the bound if and only if
  `current_size_` plus the message is within the limit while the file's real size plus the message is not.
  `RotatingModel.SinkEstimatesIff` says which writes make `current_size_` fall behind the real size.
* A rotation fails at the highest slot k that has a file below it and into which both renames fail. The files above have
  then been moved up already, that of slot k included if k < `max_files`; what is lost is the active file, which is
  emptied, and the content of the highest slot, unless nothing was there to replace it or its removal and renames all
  failed (`RotatingModel.FailedRotation`, `RotatingModel.RotationLoses`).
* The comment in `include/spdlog/sinks/rotating_file_sink-inl.h:132-136` says the highest file is deleted by a rotation. The code keeps it if
  the slot below is absent; `RotatingModel.RotationShifts` follows the code.
* A line of blanks is not an empty line: it reaches `process_message` as the empty message, because the test for
  emptiness precedes the trimming (`Framing.MessageTyped`). Typed as a nickname, it is accepted.
* `Client::handle_write` returns false for every failing `write`, "would block" included, so such a client is
  disconnected. The model does the same: `WriteFailed` stands for all of them.

## Model

| member | source | states |
|---|---|---|
| Text.TrimPadded | src/utils/helper.cpp:3-33 | padding a string that has no outer blanks and trimming it gives the string back |
| Text.TrimSplits | src/utils/helper.cpp:3-33 | every string is blanks, its trimmed form, blanks; the trimmed form has no outer blanks; with TrimPadded this determines trimming |
| Text.TrimString | src/utils/helper.cpp:3-33 | the two counting loops with erasures compute exactly the trimmed form, also for empty and all-blank strings |
| Text.DecimalReads | src/command/command_handler.cpp:110 | a number is printed in decimal digits, without leading zeros, that read as the number |
| Text.DecimalInjective | include/spdlog/sinks/rotating_file_sink-inl.h:54-64 | two numbers printed alike are equal |
| Framing.SplitJoins | src/server/chat_server.cpp:149-154 | lines and pending tail, put together again, are the stream |
| Framing.SplitUnique | src/server/chat_server.cpp:149-154 | any cut into newline-free lines and tail is the one the server makes |
| Framing.SplitAppend | src/server/chat_server.cpp:149-154 | later bytes extend only the pending tail; completed lines stay as they are |
| Framing.MessagesTrimmed | src/server/chat_server.cpp:156-164 | whatever reaches process_message has no outer blanks |
| Framing.MessageTyped | src/server/chat_server.cpp:156-164 | a line ended by LF or by CR LF gives what was typed, trimmed, and nothing if nothing was typed; only one carriage return is dropped |
| Framing.StreamTyped | src/server/chat_server.cpp:149-165 | a stream of lines ended by LF, or by CR LF, gives exactly the non-empty lines typed, trimmed, in order |
| Framing.ChunkingIrrelevant | src/server/chat_server.cpp:131-167 | however the bytes are cut into reads, messages and pending bytes are those of the whole stream |
| Commands.ParsePrivateMessageLoop | src/command/command_parser.cpp:3-19 | the scan that uses index 0 for "not found" computes the first-blank split, UNKNOWN cases included |
| Commands.PrivatePrinted | src/command/command_parser.cpp:3-19 | "/msg " + target + " " + text parses to that target and text, or to UNKNOWN if the text is empty |
| Commands.PrintParse | src/command/command_parser.cpp:21-57 | a command in canonical form parses back to itself if and only if it is printable (no blank in the target, non-empty parts, plain text without a command prefix) |
| Commands.ParsedPrivate | src/command/command_parser.cpp:3-19 | a PRIVATE_MESSAGE result means the line was "/msg " + target + " " + text with blank-free target and non-empty text |
| Commands.ParsePrint | src/command/command_parser.cpp:43-57 | a plain, private or join result printed again is the very line, so parsing loses nothing; join targets are non-empty |
| Commands.ParsedKinds | src/command/command_parser.cpp:31-57 | which lines are which command: /leave, /online and /rooms by prefix alone, whatever follows; /join with something behind it; plain exactly without any command prefix |
| Commands.UnknownLines | src/command/command_parser.cpp:3-29 | exactly which lines are UNKNOWN; on trimmed lines, exactly "/msg " with a blank-free rest |
| ChatInvariant.ReleaseFits | src/server/chat_server.cpp:287-291 | after the departing user is uncounted, counters and room set are exact for everybody else |
| ChatInvariant.AdmitFits | src/server/chat_server.cpp:267-274 | admission makes the room table exact again with the mover in its new room |
| ChatInvariant.JoinRoomOk | src/server/chat_server.cpp:256-278 | join_room keeps counters, room set and lobby right for any room it is given, the present one included |
| ChatInvariant.JoinRoomSessions | src/server/chat_server.cpp:256-278 | join_room changes nothing of any client but the mover's room and pending room, and what is queued |
| ChatInvariant.SetupNicknameOk | src/server/chat_server.cpp:210-222 | choosing a nickname keeps the invariant |
| ChatInvariant.SetupRoomPasswordOk | src/server/chat_server.cpp:223-229 | completing a room setup keeps the invariant, whatever happened to the room meanwhile; the lookup of the joined room cannot fail |
| ChatInvariant.EnterRoomPasswordOk | src/server/chat_server.cpp:230-250 | answering a password prompt keeps the invariant, also when the room is gone |
| ChatInvariant.HandleJoinRoomOk | src/command/command_handler.cpp:56-81 | /join keeps the invariant; in particular a pending join has a non-empty target that is neither the lobby nor the present room |
| ChatInvariant.ExecuteOk | src/command/command_handler.cpp:6-29 | every command keeps the invariant |
| ChatInvariant.DisconnectOk | src/server/chat_server.cpp:174-188 | removing a client keeps the invariant of all others |
| ChatInvariant.InitialOk | src/server/chat_server.cpp:38-39 | the state with the lobby alone satisfies the invariant |
| ChatInvariant.StepOk | src/server/chat_server.cpp:84-295 | every event keeps the invariant |
| ChatReference.TableIsOpenRooms | src/server/chat_server.cpp:256-295 | the room table holds exactly the lobby and the rooms somebody is in |
| ChatReference.JoinSimulated | src/server/chat_server.cpp:256-278 | join_room with counters does what walking into a room does without counters, output included |
| ChatReference.VanishSimulated | src/server/chat_server.cpp:174-188 | so does a disconnection |
| ChatReference.RequestSimulated | src/command/command_handler.cpp:56-81 | so does /join, although one server looks in its table and the other at its members |
| ChatReference.ExecuteSimulated | src/command/command_handler.cpp:6-29 | so does every command; the cached sizes /rooms prints are the counted ones |
| ChatReference.ProcessSimulated | src/server/chat_server.cpp:210-254 | so does every line in every session state |
| ChatReference.StepSimulated | src/server/chat_server.cpp:84-295 | one event of the counting server is the same event of the counter-free one |
| ChatReference.OnlineNamesAll | src/command/command_handler.cpp:95-100 | the names collected for a room are those of every client in it and of nobody else, each once, in any iteration order |
| ChatReference.EntriesAll | src/command/command_handler.cpp:105-114 | /rooms has one entry with its counter per room |
| ChatReference.ListingsAgree | src/command/command_handler.cpp:95-111 | the counter collected for a room is the number of names collected for it, whatever the iteration orders |
| ChatRuns.OnlineReply | src/command/command_handler.cpp:92-103 | a line starting with /online sends the sender, and nobody else anything, its own room's name and the nicknames of exactly the clients in that room, each once, each followed by a blank, in any iteration order |
| ChatRuns.RoomsReply | src/command/command_handler.cpp:105-114 | a line starting with /rooms sends the sender, and nobody else anything, every room once with the number of its members |
| ChatRuns.RepliesAgree | src/command/command_handler.cpp:92-114 | whoever asks, the number of names in one client's /online reply is the number in another's /rooms reply for that room |
| ChatRuns.RunOk | src/server/chat_server.cpp:46-79 | the invariant holds in every reachable state |
| ChatRuns.RunRefines | src/server/chat_server.cpp:46-79 | every run is, step for step, a run of the counter-free server |
| ChatRuns.PasswordStep | src/server/chat_server.cpp:223-229 | after one event a room's password is the line that completed its setup, or room and password were there before |
| ChatRuns.PasswordProvenance | src/server/chat_server.cpp:223-229 | in any run a room other than the lobby was created by a setup completion, and its password is the line of the latest one in its present lifetime |
| ChatRuns.PasswordChangesIff | src/server/chat_server.cpp:223-229 | a standing room's password changes exactly when a late setup completion for it arrives with another line |
| ChatRuns.SecondPassword | src/server/chat_server.cpp:223-229 | any run with two chatting clients goes on to one in which both found the same absent room: it stands with the first password, its founder inside, and then with the second |
| ChatRuns.NewChatter | src/server/chat_server.cpp:210-222 | in any run a new connection can become a chatting client, which changes the others' output only and opens no room |
| ChatRuns.TwoPasswordsReached | src/server/chat_server.cpp:223-229 | for any room name but the lobby and any two lines, a run from the start in which the room has the one password and then the other |
| ChatRuns.EntryStep | src/server/chat_server.cpp:210-254 | a client comes into a room in one event exactly in the listed ways |
| ChatRuns.MemberProvenance | src/command/command_handler.cpp:56-90 | in any run a member of a non-lobby room entered by completing the setup, by the password of that moment, or by /join while the password was empty, and has stayed since |
| ChatRuns.PendingProvenance | src/command/command_handler.cpp:62-80 | in any run a pending join goes back to the client's own /join and nothing has touched it since, however other clients interleave |
| ChatRuns.FounderProvenance | src/command/command_handler.cpp:62-68 | a completed setup was begun by the same client's /join that found the room absent |
| ChatRuns.LineJoins | src/server/chat_server.cpp:210-278 | the room table after a line is that of one join_room call to a target known before the line, or unchanged if there is none, apart from the password a setup stores |
| ChatRuns.NeverRejoins | src/server/chat_server.cpp:216-239 | in no run is join_room given the room the client is already in; the target decides both the room table and the client's room after the line |
| ChatRuns.LineIsolation | src/server/chat_server.cpp:210-254 | whatever one client types, another keeps state, room and pending join, loses no output, and hears something only in the old or new room of the sender or as the private target |
| ChatRuns.JoinAnnounces | src/server/chat_server.cpp:256-278 | the departure is queued once to each chatting client of the old room, the arrival once to each of the new room, the mover included, in that order |
| ChatRuns.DisconnectAnnounces | src/server/chat_server.cpp:174-208 | a disconnection is announced once to the room, then once to every chatting client if there was a nickname |
| ChatRuns.SilentDisconnect | src/server/chat_server.cpp:174-188 | a client that goes before it has a nickname changes nothing and is announced to nobody |
| ChatRuns.AcceptPrompts | src/server/chat_server.cpp:109-127 | an accepted client starts without nickname and room and is sent the prompt; a failed registration leaves no trace |
| ChatRuns.PlainMessageReaches | src/command/command_handler.cpp:31-37 | in any run a plain message is appended exactly once to each chatting client of the sender's room and to no other; the sender's room is never empty, so the address "everyone" is not used |
| ChatRuns.MessagesCommute | src/server/chat_server.cpp:190-199 | messages said in two different rooms commute |
| ChatRuns.PrivateDelivery | src/command/command_handler.cpp:39-54 | for every iteration order one chatting client of that nickname gets the message and the sender the confirmation, or, if there is none, only the sender is told; all else is unchanged |
| ChatRuns.WriteOutcome | src/client/client.cpp:7-42 | a write event keeps the client unless the write failed with output pending; then exactly the written bytes are gone and more is wanted as long as something is left, and nothing else changes |
| ChatRuns.GoneIff | src/server/chat_server.cpp:57-78 | in any run a client is gone after an event exactly if it was its hangup or its failing write with output pending |
| ChatRuns.OutputStep | src/client/client.cpp:7-55 | no event removes or reorders queued bytes, except that a write takes them from the front |
| ChatRuns.OutputFifo | src/client/client.cpp:7-55 | in any run, what is buffered for a client is the beginning of what is written to it later followed by what is still buffered |
| ChatServer.Client.QueueMessage | src/client/client.cpp:44-55 | appends; sent bytes followed by the buffer stay the concatenation of all queued messages; the registered interest follows want_write unless epoll_ctl has failed |
| ChatServer.Client.HandleWrite | src/client/client.cpp:7-42 | moves exactly the written bytes from the front of the buffer to the sent ones, keeping the same two facts; true exactly if the write succeeded or nothing was pending |
| ChatServer.ChatServer.constructor | src/server/chat_server.cpp:38-39 | starts the empty run, with the lobby alone |
| ChatServer.ChatServer.HeapInvariant | src/server/chat_server.cpp:46-79 | the invariant holds of the heap between any two events |
| ChatServer.ChatServer.Broadcast | src/server/chat_server.cpp:190-199 | in any iteration order queues the message once to each chatting client of the room (of all rooms for the empty name) |
| ChatServer.ChatServer.SendDisconnectNotification | src/server/chat_server.cpp:201-208 | queues the notice once to each chatting client |
| ChatServer.ChatServer.JoinRoom | src/server/chat_server.cpp:256-278 | the heap update is join_room on values, no object shared between rooms or clients |
| ChatServer.ChatServer.LeaveRoom | src/server/chat_server.cpp:280-295 | the heap update is leave_room on values |
| ChatServer.ChatServer.Disconnect | src/server/chat_server.cpp:174-188 | the heap update is disconnect_client on values; exactly that client's entry goes |
| ChatServer.ChatServer.SetupNickname | src/server/chat_server.cpp:210-222 | the heap update is the nickname transition |
| ChatServer.ChatServer.SetupRoomPassword | src/server/chat_server.cpp:223-229 | the heap update is the setup transition; the room is found after the join |
| ChatServer.ChatServer.EnterRoomPassword | src/server/chat_server.cpp:230-250 | the heap update is the password transition with its three outcomes |
| ChatServer.ChatServer.ProcessMessage | src/server/chat_server.cpp:210-254 | the heap update is the line's transition for some enumeration of both maps |
| ChatServer.ChatServer.Execute | src/command/command_handler.cpp:6-29 | the heap update is that of the parsed command |
| ChatServer.ChatServer.HandlePlainMessage | src/command/command_handler.cpp:31-37 | the heap update is the broadcast to the sender's room |
| ChatServer.ChatServer.HandlePrivateMessage | src/command/command_handler.cpp:39-54 | the search loop finds the first answering client of the iteration order and updates two clients, possibly the same one |
| ChatServer.ChatServer.HandleJoinRoom | src/command/command_handler.cpp:56-81 | the heap update is the four-way /join |
| ChatServer.ChatServer.HandleLeaveRoom | src/command/command_handler.cpp:83-90 | in the lobby a reply, elsewhere the walk to the lobby |
| ChatServer.ChatServer.OnlineList | src/command/command_handler.cpp:92-103 | the loop builds the list of the room's nicknames in iteration order |
| ChatServer.ChatServer.RoomList | src/command/command_handler.cpp:105-114 | the loop builds the list of room names and counters in iteration order |
| ChatServer.ChatServer.AcceptNewClient | src/server/chat_server.cpp:109-127 | one more accept event of the run; the entry disappears again when registration fails |
| ChatServer.ReadShape | src/server/chat_server.cpp:133-149 | the results of reading are chunks, whose concatenation is the data, and then nothing more or an end or error, which closes |
| ChatServer.ChatServer.ServeLines | src/server/chat_server.cpp:151-165 | serves exactly the messages of the buffer's complete lines, in order, and leaves the newline-free tail |
| ChatServer.ChatServer.HandleClientRead | src/server/chat_server.cpp:131-167 | extends the run by one event per message of old tail plus bytes read, wherever the reads cut them, and by a hangup when the stream ends or fails |
| ChatServer.ChatServer.HandleClientWrite | src/server/chat_server.cpp:168-172 | one more write event of the run; the client goes if the write failed |
| ChatServer.ChatServer.HangupClient | src/server/chat_server.cpp:66-69 | one more hangup event of the run |
| Ring.CircularQ.Disabled | include/spdlog/details/circular_q.h:26 | a disabled queue stores nothing |
| Ring.CircularQ.constructor | include/spdlog/details/circular_q.h:28-31 | an empty bounded sequence of the given capacity, 0 included |
| Ring.CircularQ.Move | include/spdlog/details/circular_q.h:38-112 | takes over the other queue's items and counter and leaves it disabled |
| Ring.CircularQ.PushBack | include/spdlog/details/circular_q.h:46-57 | appends to the sequence and, over capacity, drops the oldest item and counts it |
| Ring.CircularQ.PopFront | include/spdlog/details/circular_q.h:83 | removes the oldest item and nothing else |
| Ring.CircularQ.Front | include/spdlog/details/circular_q.h:61-63 | the oldest item |
| Ring.CircularQ.Size | include/spdlog/details/circular_q.h:66-72 | the length of the sequence, wrapped or not |
| Ring.CircularQ.At | include/spdlog/details/circular_q.h:76-79 | the i-th oldest item |
| Ring.CircularQ.Empty | include/spdlog/details/circular_q.h:85 | true exactly for the empty sequence |
| Ring.CircularQ.Full | include/spdlog/details/circular_q.h:87-93 | true exactly at capacity; never for a disabled queue |
| Ring.CircularQ.ResetOverrunCounter | include/spdlog/details/circular_q.h:97 | forgets the overruns and nothing else |
| Ring.LastRaw | include/spdlog/sinks/ringbuffer_sink.h:30-40 | the most recent lim items in order, all for lim 0 |
| Ring.PushAllKeepsLast | include/spdlog/sinks/ringbuffer_sink.h:57-59 | after any history the sink holds the last capacity messages and the overrun counter counts all others |
| Ring.PushAllDisabled | include/spdlog/details/circular_q.h:26-57 | a disabled queue takes nothing and counts nothing |
| BlockingQueue.MpmcBlockingQueue.Enqueue | include/spdlog/details/mpmc_blocking_q.h:31-38 | proceeds exactly when there is room, and then appends without losing anything |
| BlockingQueue.MpmcBlockingQueue.EnqueueNowait | include/spdlog/details/mpmc_blocking_q.h:41-47 | always appends, overrunning the oldest item of a full queue |
| BlockingQueue.MpmcBlockingQueue.EnqueueIfHaveRoom | include/spdlog/details/mpmc_blocking_q.h:49-64 | appends exactly if there is room; otherwise the queue stays and a discard is owed |
| BlockingQueue.MpmcBlockingQueue.CountDiscard | include/spdlog/details/mpmc_blocking_q.h:59-63 | pays one owed discard, outside the lock |
| BlockingQueue.MpmcBlockingQueue.Dequeue | include/spdlog/details/mpmc_blocking_q.h:82-90 | proceeds exactly when there is an item, and hands out the oldest |
| BlockingQueue.RecordConserved | include/spdlog/details/mpmc_blocking_q.h:31-90 | each action keeps the books: accepted items are popped or overrun oldest first, or stored, in order; only an unguarded push into a full queue overruns |
| BlockingQueue.AlwaysConserved | include/spdlog/details/mpmc_blocking_q.h:31-90 | under any interleaving: popped items are the accepted ones in order, with gaps only for overrun items; attempts = accepted + discarded + about to be counted; no overrun without an unguarded push into a full queue |
| BlockingQueue.CountsAgree | include/spdlog/details/mpmc_blocking_q.h:31-90 | accepted = popped + stored + overrun in every reachable state |
| ThreadPool.NextOk | include/spdlog/details/thread_pool-inl.h:79-122 | every atomic step keeps the pool's invariant; a worker works on what it was handed last, goes on after it, and stops exactly after a terminate |
| ThreadPool.PostWaitsIff | include/spdlog/details/thread_pool-inl.h:79-88 | only a post under block ever waits, and exactly while the queue is full |
| ThreadPool.QueueHistory | include/spdlog/details/thread_pool-inl.h:44-88 | in any run the queue has gone through exactly the actions of the steps, each post under its caller's policy, terminates blocking; so all that is proved of queue histories holds |
| ThreadPool.PushedStep | include/spdlog/details/thread_pool-inl.h:79-88 | a step adds to the accepted messages the one posted, except a discard_new post to a full queue |
| ThreadPool.OverrunStep | include/spdlog/details/thread_pool-inl.h:79-88 | a step overruns a message exactly if it is an overrun_oldest post to a full queue |
| ThreadPool.HandedInOrder | include/spdlog/details/thread_pool-inl.h:91-100 | in any run the workers were handed the accepted posts in posting order, without the overrun ones, and the rest is queued |
| ThreadPool.NothingLost | include/spdlog/details/thread_pool-inl.h:79-100 | if no overrun_oldest post met a full queue, what was handed out followed by what is queued is all that was posted and accepted, in order |
| ThreadPool.RunOk | include/spdlog/details/thread_pool-inl.h:44-122 | the invariant holds in every interleaving |
| ThreadPool.LiveWorkersMatched | include/spdlog/details/thread_pool-inl.h:44-55 | live workers = terminates not yet posted + terminates queued, always |
| ThreadPool.NeverStuck | include/spdlog/details/thread_pool-inl.h:44-55 | with capacity at least 1 the destructor or some worker can move until shutdown is complete |
| ThreadPool.DeadlockFreeIff | include/spdlog/details/thread_pool-inl.h:44-55 | for 1 to 1000 workers, shutdown is deadlock-free in all interleavings if and only if the capacity is at least 1 |
| ThreadPool.MeasureDecreases | include/spdlog/details/thread_pool-inl.h:79-122 | after destruction has begun every step brings a non-negative measure down |
| ThreadPool.ShutdownBounded | include/spdlog/details/thread_pool-inl.h:44-55 | the destruction phase has at most that many steps |
| ThreadPool.NothingLeftBehind | include/spdlog/details/thread_pool-inl.h:91-122 | when the last worker has stopped the queue is empty and every accepted message not overrun was handed to exactly one worker, in order |
| RotatingNames.SplitMeaning | include/spdlog/details/file_helper-inl.h:130-148 | the two parts concatenate to the name, and an extension is one dot and plain characters behind a proper stem |
| RotatingNames.SplitUnique | include/spdlog/details/file_helper-inl.h:130-148 | a proper stem and extension put together are split again at the same place |
| RotatingNames.FilenamesDistinct | include/spdlog/sinks/rotating_file_sink-inl.h:54-64 | two slots never share a file name, slot 0 included |
| RotatingNames.FilenameOf | include/spdlog/sinks/rotating_file_sink-inl.h:51-64 | the index stands between stem and extension; index 0 is the name itself |
| RotatingNames.FilenameWithoutExtension | include/spdlog/sinks/rotating_file_sink-inl.h:51-64 | without a proper extension the index stands at the end |
| RotatingModel.RotateEstimates | include/spdlog/sinks/rotating_file_sink-inl.h:138-166 | a rotation, failing or not, keeps current_size_ an upper bound of the real size although it does not reset it on success |
| RotatingModel.ChainFailsAt | include/spdlog/sinks/rotating_file_sink-inl.h:143-164 | the rename loop stops at the highest slot that is blocked before it begins: a file below it and both renames failing |
| RotatingModel.RotateThrowsIff | include/spdlog/sinks/rotating_file_sink-inl.h:138-166 | a rotation throws exactly if a slot is blocked beforehand or the log file cannot be reopened; otherwise the log file is open and empty and current_size_ as before |
| RotatingModel.WrittenExactly | include/spdlog/sinks/rotating_file_sink-inl.h:108-125 | what a message written in full does to every field: it rotates exactly if the estimate leaves no room and the file has bytes; the file then holds the message alone, else its old content and the message; the estimate restarts at the message's size after a rotation |
| RotatingModel.SinkThrowsIff | include/spdlog/sinks/rotating_file_sink-inl.h:108-125 | exactly when a message makes the sink throw; a closed sink leaves the files alone |
| RotatingModel.LogExactIff | include/spdlog/sinks/rotating_file_sink-inl.h:108-125 | an exact estimate stays exact over a message exactly unless a failing write leaves it off |
| RotatingModel.ExactUntilStale | include/spdlog/sinks/rotating_file_sink-inl.h:73-125 | through any life current_size_ is the real size until, and not after, the first such write or the first successful rotate_now of a non-empty estimate |
| RotatingModel.ExactRotatesIff | include/spdlog/sinks/rotating_file_sink-inl.h:113-124 | with an exact estimate a message rotates the file if and only if the file has bytes and no room for it |
| RotatingModel.SinkEstimatesIff | include/spdlog/sinks/rotating_file_sink-inl.h:108-125 | after a message current_size_ is still an upper bound if and only if the write did not fail leaving more bytes behind than the estimate's surplus |
| RotatingModel.SinkBoundedIff | include/spdlog/sinks/rotating_file_sink-inl.h:108-125 | whatever happened before, a message written in full leaves the active file at most max(max_size_, size of the message) long if and only if it is not the case that current_size_ lets it in while the real size does not |
| RotatingModel.SinkBounded | include/spdlog/sinks/rotating_file_sink-inl.h:108-125 | while current_size_ is an upper bound, a message written in full keeps the size bound |
| RotatingModel.PartialWriteBreaksBound | include/spdlog/sinks/rotating_file_sink-inl.h:108-125 | a concrete history with one half-way failing write after which a file limited to 10 bytes holds 19 |
| RotatingModel.EstimateHoldsUntilSpoiled | include/spdlog/sinks/rotating_file_sink-inl.h:73-125 | over any mixture of messages, rotations and setters the estimate holds throughout if and only if no failing write exceeded the surplus |
| RotatingModel.BoundedThroughLifeIff | include/spdlog/sinks/rotating_file_sink-inl.h:73-125 | anywhere in any life, failing writes and rotations included, the same exact condition for the size bound after a message written in full |
| RotatingModel.BoundedThroughLife | include/spdlog/sinks/rotating_file_sink-inl.h:73-125 | before a failing write has exceeded the surplus the condition for breaking the bound never arises, so the bound holds |
| RotatingModel.OpenedFiles | include/spdlog/sinks/rotating_file_sink-inl.h:43-48 | opening rotates a non-empty log file exactly if asked to, and else changes no file but creates an absent one |
| RotatingModel.OpenedExact | include/spdlog/sinks/rotating_file_sink-inl.h:26-49 | a sink that opens knows the exact size of its file, rotated on open or not |
| RotatingModel.RotationShifts | include/spdlog/sinks/rotating_file_sink-inl.h:138-166 | with no slot blocked beforehand, every slot shifts up by one and slot 0 is empty, m = 0 and a failing reopen included; slot m keeps its content if slot m-1 was absent; higher slots are untouched |
| RotatingModel.FailedRotation | include/spdlog/sinks/rotating_file_sink-inl.h:150-162 | with k the highest slot blocked beforehand, what every slot holds afterwards: shifted above k, unchanged below, slot k vacated or, if it is the highest, deleted unless that failed, slot 0 emptied; a failing reopen included |
| RotatingModel.RotationLoses | include/spdlog/sinks/rotating_file_sink-inl.h:132-166 | after any rotation every content is still in its slot or one above, except the log file's if it was not moved and the highest slot's if there was a file to replace it; without a blocked slot that is at most one |
| RotatingSink.RotatingFileSink.Open | include/spdlog/sinks/rotating_file_sink-inl.h:26-49 | throws exactly for a zero size, too many files, a failing open or a failing first rotation; otherwise the opened sink, and what it did to the files |
| RotatingSink.RotatingFileSink.RenameFile | include/spdlog/sinks/rotating_file_sink-inl.h:171-176 | on success the source replaces the target; on failure the target may be gone |
| RotatingSink.RotatingFileSink.Reopen | include/spdlog/details/file_helper-inl.h:64-69 | truncation and opening, each of which may fail |
| RotatingSink.RotatingFileSink.MoveFile | include/spdlog/sinks/rotating_file_sink-inl.h:150-155 | slot i-1 moves to slot i unless both attempts fail |
| RotatingSink.RotatingFileSink.Rotate | include/spdlog/sinks/rotating_file_sink-inl.h:138-166 | the loop over the slots computes the rename chain on values, with its early exit |
| RotatingSink.RotatingFileSink.RotateNow | include/spdlog/sinks/rotating_file_sink-inl.h:73-76 | one rotation of the sink's life |
| RotatingSink.RotatingFileSink.SetMaxSize | include/spdlog/sinks/rotating_file_sink-inl.h:78-84 | sets the limit or throws for zero, changing nothing else |
| RotatingSink.RotatingFileSink.SetMaxFiles | include/spdlog/sinks/rotating_file_sink-inl.h:93-99 | sets the number of slots or throws above 200000, changing nothing else |
| RotatingSink.RotatingFileSink.WriteOut | include/spdlog/details/file_helper-inl.h:98-106 | appends all of the message, or a part of it and throws; nothing without an open file |
| RotatingSink.RotatingFileSink.SinkIt | include/spdlog/sinks/rotating_file_sink-inl.h:108-125 | one message of the sink's life; current_size_ stays as it was when the write throws |
| ConfigModel.ParsePrinted | src/config/config.cpp:38-69 | a printed binding, with any padding and comment, parses to that binding; comment and blank lines bind nothing |
| ConfigModel.LoadPrinted | src/config/config.cpp:10-26 | loading a written file gives what its lines mean in order |
| ConfigModel.FinalNewlineOptional | src/config/config.cpp:17-21 | the newline after the last line may be missing |
| ConfigModel.ParseAccepted | src/config/config.cpp:38-69 | on every line whatever: it binds its trimmed key, possibly empty, if the text before its first = is non-empty and without # and something follows, and binds nothing otherwise |
| ConfigModel.LastBindingWins | src/config/config.cpp:17-21 | of arbitrary lines the last accepted one for a key decides its value |
| ConfigModel.Unbound | src/config/config.cpp:17-21 | a key that no accepted line has keeps what it had |
| ConfigModel.ConfigRoundTrip | src/config/config.cpp:10-69 | a map of trimmed non-empty keys and values, written one binding per line in any order with padding, comments and blank lines, loads back as itself |
| Config.Config.ParseLine | src/config/config.cpp:38-69 | updates the data exactly as the line means, malformed lines leaving it alone |
| Config.Config.Load | src/config/config.cpp:10-26 | reads line by line what the whole file means; false and no change when it cannot be opened |
| Config.ReadSetting | src/main.cpp:16-21 | load followed by get gives, from a file that writes a map, the map's value for the key, and the default for a missing key or an unreadable file |
| Config.FindEqual | src/config/config.cpp:45-52 | the first '=', or 0 if there is none |

## Left out

- Sockets, epoll, file descriptors, the daemon, signals and log output: operating-system effects.
- The dangling client pointer when one epoll batch runs the write handler after the read handler has disconnected the
  client (src/server/chat_server.cpp:71-77): each readiness flag is an event of a live client here.
- Liveness of edge-triggered wake-ups: it rests on kernel behaviour. The registered write interest is part of
  `ChatServer.Client.Valid` only, not of the run model.
- Integer widths: counters, sizes and indices are unbounded. Text is a sequence of characters, one per byte.
- ChatServer.ChatServer.SendDisconnectNotification: calls the broadcast to everyone, where the source repeats the loop.
- ChatServer.ChatServer.AcceptNewClient: one connection; the loop of accept calls around it is one event per connection.
- CommandHandler has no object of its own; its handlers are methods of the server, whose private parts it uses.
- Iteration orders of the two hash maps: one arbitrary enumeration of each is drawn per line, at its start.
- Memory ordering and condition-variable notification: a wait is a guard on an atomic step. Lost wake-ups are not covered.
- dequeue_for and the two counter resets are not actions of the queue's history; the MinGW variant of the queue, which
  counts a discard under the lock, is the special case in which CountDiscard follows at once.
- ThreadPool: producers are assumed to post nothing once destruction has begun (a later post would use an object that is
  going away); a backend sink that throws, and the start and stop callbacks of the threads, are not modelled.
- Rotating sink: log files are not changed by other programs; buffered and flushed bytes are not told apart, so data lost
  by a crash is outside; the delays and retries inside open are one outcome; folders are separated by '/' only.
- ringbuffer_sink's last_formatted, which needs the formatter, and the copy operations of the ring.
- The rest of spdlog and the test framework.

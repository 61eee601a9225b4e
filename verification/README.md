# roki-mb-daemon: a verified model

roki-mb-daemon lends one serial port of a Roki robot to one client at a time and runs the firmware scripts of
its STM32 controllers. This project models the parts of it where calls, threads, bytes and scripts meet, and
proves what they keep in every run.

| file | models |
|---|---|
| `Firmware.dfy` | the firmware FSM and `HandlerImpl`: critical sections as functions, and the two classes for calls made one at a time |
| `Arbitration.dfy` | the same critical sections interleaved by any number of handler threads, with child processes |
| `PortSafety.dfy`, `Transitions.dfy`, `Rejections.dfy`, `Statuses.dfy`, `Calls.dfy`, `Sequential.dfy`, `Races.dfy` | theorems about every interleaving, and the short runs where the plain forms fail |
| `Erasure.dfy` | that what the interleaving machine records for the proofs has no effect on it |
| `Limits.dfy` | which replies fit the 256-byte buffer over every run |
| `Codec.dfy`, `Rpc.dfy`, `Session.dfy` | messages, frames over a chunked byte stream, and whole client sessions |
| `Wording.dfy` | the texts of the program, letter by letter |
| `Lifecycle.dfy`, `CleanupSafety.dfy`, `HandlerLives.dfy`, `Shutdown.dfy` | dispatch, handler, cleanup and main threads of the server |
| `Flash.dfy` | the firmware packet encoder, a reference decoder, and the acknowledged send loop |
| `Descriptors.dfy` | movable descriptor wrappers, server sockets and the port search |
| `Bytes.dfy`, `Numerals.dfy`, `Runs.dfy` | bytes, printed numbers, and runs of a labelled machine |

The concurrent parts are machines `Step(state, event)`. A run is a log of events, `Run(h)` is the state after
it, and a theorem with a log `h` as parameter speaks about every run. One event is one critical section, one
system call or one unlocked gap between them. The classes carry the imperative parts; their methods are proved
against functions of the values they hold.

## What the model shows

- "A held port means running firmware" is true when calls do not overlap. With overlapping calls it holds up to
  one race: a Reset that passed its not-acquired check before the Connect locked and reaches the FSM after the
  Connect read it. `HeldPortKeepsRunning` states this as an if-and-only-if over the log, and
  `AcquiredWhileResetting` is a run. The repository's own description promises that all operations run in a
  defined order (README.md:14-20).
- `Execute` waits for any child. A call is sure to get its own exactly when no child exists before it forks
  (`ReapsOwnIff`), which the FSM's exclusion gives when no thread is cancelled; after a cancelled wait a later
  Reset can settle in Boot while its script still runs (`CancelledWaitMisleads`).
- `PackError` sends, and its callers send again, so every error reply is on the stream twice and every later call
  reads an older frame (`CallGetsOwnReply`, `UnreadFrames`).
- `PackError` refuses texts over 255 bytes, but header and text fit only up to 254. A stored user name of 198
  bytes is enough to overrun the buffer, and of 199 to end the daemon (`NameBoundIsExact`, `RefusedConnectFate`,
  `EveryFateIsMet`).
- A rejection text reads the state after the unlock. It names an expected state exactly when a routine settled in
  one in between and none was admitted since (`RejectionNamesExpectedIff`, `RejectionCanNameExpectedState`).
- Cleanup can leave while dispatch is between spawning and inserting a handler (`LateInsertLeaks`). A handler that
  leaves its routine before its insert makes cleanup's lookup throw (`LookupCanFailIff`): its Accept failed
  (`EarlyFailureCrashes`), or a client connected to the guessed port without waiting for its hello and left
  (`GuessedPortCrashes`). Clients may connect at any time in the model.

## Assumptions

- `char` is an unsigned byte, as under the usual ARM ABI; `pid_t` is a 32-bit little-endian two's complement number.
- Every access to a shared flag, and the unlocked iteration over `Handlers` in `Run`, is one atomic step.
- Calls into hardware and the kernel (scripts, `fork`, `wait`, `accept`, `bind`, `recv`, `send`, serial answers)
  are events, parameters or nondeterministic choices.

## Model

| member | source | states |
|---|---|---|
| PortSafety.HeldPortKeepsRunning | Src/HandlerImpl.cpp:55-97 | over every run that ends with the port held, the holder's Connect is in the log, and the firmware has been Running ever since it read the state exactly when no Reset cleared before its lock came to the FSM after its read |
| PortSafety.HeldButNotRunning | Src/HandlerImpl.cpp:71-97 | if the port is held and the firmware is not Running, such an early Reset is in the log |
| PortSafety.NoResetInFlightIsSafe | Src/HandlerImpl.cpp:71-97 | if no Reset is between its check and the FSM when the holder locks, the firmware stays Running while the port is held |
| PortSafety.OneAtATimeIsSafe | Src/HandlerImpl.cpp:60-106 | in runs whose calls do not overlap, Acquired implies Running in every state |
| PortSafety.RunsAreSafe | Src/HandlerImpl.cpp:49-106 | every reachable state keeps exclusion of routines, exactness of the handler mutex, and the order between checks, locks and admissions |
| Erasure.RecordingIsInvisible | Src/HandlerImpl.cpp:25-106 | the machine with all recorded times, origins and owners erased after every step has the same logs, the same states up to erasure and the same replies, so the theorems speak about the mutexes and fields of the source alone |
| Erasure.StepErases | Src/FirmwareFSM.cpp:26-54 | each step of an erased state is, up to erasure, the step of the state, and is possible exactly when that is |
| PortSafety.PcsAreLogged | Src/HandlerImpl.cpp:55-97 | where a thread stands in a call is justified by its own last events in the log |
| PortSafety.GrantsAreLogged | Src/HandlerImpl.cpp:77-106 | a held port is justified by one Connect's lock, read and finish, with no Connect or Disconnect since |
| PortSafety.StaysRunning | Src/FirmwareFSM.cpp:38-54 | without a Reset admitted since the holder's read, every state since is Running |
| Races.AcquiredWhileResetting | Src/HandlerImpl.cpp:71-97 | a reachable state has the port held and a Reset in transition |
| Transitions.TransitionIsExclusive | Src/FirmwareFSM.cpp:26-54 | State is Transition exactly when one and only one thread is between admission and SetState, exactly when the routine name is not "Nothing"; the description is never "Transition" or "Nothing" |
| Transitions.RejectionChangesNothing | Src/FirmwareFSM.cpp:38-47 | an admission attempt is rejected exactly when the state is not expected, and then changes nothing |
| Transitions.HopsArePath | Src/FirmwareFSM.cpp:38-54 | the completed transitions of every run form a path from Boot, each admitted from an expected state and ending in the final state or Fault |
| Transitions.FaultNeedsReset | Src/FirmwareFSM.cpp:104-135 | after a failed action the next completed routine, and any routine still running, is a Reset; Running is entered only by a Start admitted from Boot |
| Transitions.ReapsOwnIff | Src/HwUtils.cpp:40-49 | over every run, an admitted call is sure to reap its own child, however the run goes on, if and only if no child process exists before it forks |
| Transitions.ReapsOwnChild | Src/HwUtils.cpp:40-64 | if the fork found no child, the child reaped by wait-for-any-child is the one the same call forked, cancelled waits or not |
| Transitions.EndsByOwnScript | Src/HwUtils.cpp:40-64 | if the fork found no child, the action a routine reports is how its own script ended, or it could not fork or was cancelled |
| Transitions.SettlesByOwnScript | Src/FirmwareFSM.cpp:49-53 | if the fork found no child, the FSM settles in the final state, and the client is told success, exactly when the routine's own script exited with 0; else it settles in Fault |
| Transitions.UncancelledCallsAreClean | Src/FirmwareFSM.cpp:38-54 | without thread cancellation every fork finds no child, because the FSM admits one action at a time |
| Transitions.UncancelledSettles | Src/FirmwareFSM.cpp:98-102 | without thread cancellation the settled state tells exactly whether the routine's own script exited with 0 |
| Transitions.DoneMeansFinal | Src/FirmwareFSM.cpp:49-53 | over every run the client is told success exactly when the FSM settles in the routine's final state, and an error exactly when it settles in Fault |
| Calls.WaitNeverFails | Src/HwUtils.cpp:48-53 | over every run a waiting call's own child is there, so wait never fails for want of a child |
| Transitions.ChildrenAreOwn | Src/HwUtils.cpp:40-49 | without cancellation the only child process is the one the admitted thread waits for |
| Races.CancelledWaitMisleads | Src/HwUtils.cpp:48-49 | with cancellation a Reset can settle in Boot while its own script still runs |
| Transitions.ConnectsAlternate | Src/HandlerImpl.cpp:77-106 | successful Connects and Disconnects alternate, beginning with a Connect, and the last one tells whether and by whom the port is held |
| Calls.PathMeansTaken | Src/HandlerImpl.cpp:77-97 | over every run the port path is the answer exactly to the Connect that takes the port, which stores its user |
| Calls.DoneMeansGiven | Src/HandlerImpl.cpp:99-106 | over every run a Disconnect is answered with success exactly when it gives a held port back, else with "Port is not acquired" and no change |
| Calls.ReadStateDecides | Src/HandlerImpl.cpp:81-82 | a Connect goes on exactly when it reads Running, else is told that the firmware is not started, frees the mutex and changes nothing |
| Calls.RefusalNamesHolder | Src/HandlerImpl.cpp:49-58 | over every run a refused call changes nothing and names the user of the last successful Connect |
| Calls.AnsweredAtEnd | Src/HandlerImpl.cpp:25-106 | a reply is handed out exactly at the event that ends its call |
| Calls.IdleCanCall | Src/HandlerImpl.cpp:55-106 | while the handler mutex is free an idle thread can begin every call |
| Calls.StartAlwaysTries | Src/HandlerImpl.cpp:66-69 | a Start comes to the FSM whoever holds port or mutex |
| Calls.NobodyIsStuck | Src/FirmwareFSM.cpp:38-54 | over every run every thread inside a call has a next step that brings it nearer to its end |
| Calls.CallsCanFinish | Src/HandlerImpl.cpp:25-106 | from every reachable state each call can come to its end without any other thread and without a failing system call |
| Calls.FailedRoutineIsTold | Src/HwUtils.cpp:41-53 | a fork that fails or a wait that is cancelled leads to Fault and an error reply |
| Calls.FailedClearIsTold | Src/HandlerImpl.cpp:84-87 | a Connect that cannot drain the port is told an error, frees the mutex and changes nothing |
| Sequential.CallsDoAsPromised | Src/HandlerImpl.cpp:25-106 | over every run of calls made one at a time, each reply and the state after it are those that the method of HandlerImpl promises from the state where the call began |
| Statuses.StatusIsSnapshot | Src/HandlerImpl.cpp:25-43 | over every run a status reply is a snapshot of the moment at which its call read the FSM: whole description, flag, name and PID |
| Statuses.UndisturbedStatusIsTrue | Src/FirmwareFSM.cpp:85-96 | if nothing was admitted or settled since then, the reply describes the daemon as it is now |
| Statuses.AcquiredStatusSaysRunning | Src/HandlerImpl.cpp:25-43 | a status that says acquired says Running unless an early Reset raced with the holder's Connect |
| Statuses.NobodyAtFirst | Inc/roki-mb-daemon/HandlerImpl.hpp:15-17 | until the first successful Connect the port is free, with no name and PID -1 |
| Transitions.StatusTellsHolder | Src/HandlerImpl.cpp:25-43 | a status reply says acquired exactly when the last change was a Connect, and carries that Connect's name and PID |
| Transitions.FailedConnectChangesNothing | Src/HandlerImpl.cpp:77-87 | no step of a Connect before its last changes the holder or the firmware |
| Rejections.RejectionNamesExpectedIff | Src/FirmwareFSM.cpp:38-47 | over every run ending with a thread turned away and about to report, its text names an expected state if and only if a routine settled in one since and none was admitted after that; never without a routine settling since |
| Rejections.UndisturbedRejectionIsTrue | Src/FirmwareFSM.cpp:38-47 | if nothing was admitted and nothing settled since, the text names the state that turned the thread away |
| Rejections.RejectionTellsState | Src/FirmwareFSM.cpp:6-20 | texts for different states differ |
| Races.RejectionCanNameExpectedState | Src/FirmwareFSM.cpp:45-47 | a reachable rejection text names a state that the routine expects |
| Firmware.ComposeMsg | Src/FirmwareFSM.cpp:6-20 | the loop builds the text with all expected states joined by commas |
| Firmware.FirmwareFSM.CheckState | Src/FirmwareFSM.cpp:32-36 | the loop decides membership of the state in the list |
| Firmware.FirmwareFSM.SetState | Src/FirmwareFSM.cpp:26-30 | sets the state and clears the routine name |
| Firmware.DescriptionTellsFsm | Src/FirmwareFSM.cpp:85-96 | two well-formed machines have the same description if and only if they are in the same state and, in a transition, run the same routine |
| Firmware.FirmwareFSM.DoTransition | Src/FirmwareFSM.cpp:38-54 | rejected unchanged with the composed text; otherwise success is told exactly when the script exited with 0, exactly when the final state is reached, and any failure leaves Fault |
| Firmware.HandlerImpl.Reset | Src/HandlerImpl.cpp:71-75 | refused with the holder's data while acquired, else told success exactly when the script exited with 0 and the state is Boot, with Fault otherwise; keeps Acquired implies Running |
| Firmware.HandlerImpl.Flash | Src/HandlerImpl.cpp:60-64 | runs only unacquired and from Boot, otherwise changes nothing; told success exactly when the script exited with 0, with Fault otherwise; keeps Acquired implies Running |
| Firmware.HandlerImpl.Start | Src/HandlerImpl.cpp:66-69 | runs only from Boot, otherwise changes nothing; told success exactly when the script exited with 0 and the state is Running, with Fault otherwise; keeps Acquired implies Running |
| Firmware.HandlerImpl.Connect | Src/HandlerImpl.cpp:77-97 | succeeds exactly when free, running and clearable, and then stores the user; a failure changes nothing |
| Firmware.HandlerImpl.Disconnect | Src/HandlerImpl.cpp:99-106 | frees a held port and keeps the stored user; refused when free |
| Firmware.HandlerImpl.GetStatus | Src/HandlerImpl.cpp:25-43 | reports description, flag and user; when acquired the description is "Running" |
| Firmware.RefusalTellsHolder | Src/HandlerImpl.cpp:49-53 | two refusals of a procedure are equal if and only if name and PID of the holder are, whatever bytes the name has |
| Wording.DescriptionWords | Inc/roki-mb-daemon/FirmwareFSM.hpp:36-42 | the description in each state and routine, letter by letter |
| Wording.ScriptWords | Src/HwUtils.cpp:55-63 | the texts for a killed script and for each exit code, letter by letter |
| Wording.ScriptTextTells | Src/HwUtils.cpp:55-63 | two such texts are equal if and only if the scripts ended alike |
| Wording.RefusalWords | Src/HandlerImpl.cpp:49-53 | the refusal for each procedure and holder, letter by letter |
| Wording.RejectionWords | Src/FirmwareFSM.cpp:6-20 | the rejection for each routine and state, letter by letter |
| Limits.RepliesArriveIntact | Src/HandlerImpl.cpp:25-53 | with names of at most 197 bytes every status reply and every error text of every reachable state fits the buffer and is received unchanged |
| Limits.NameBoundIsExact | Src/HandlerImpl.cpp:49-53 | 197 is the longest name whose refusal fits for every PID |
| Limits.RefusedConnectFate | Src/RPC.cpp:31-41 | a Connect refused because of a holder with n = 46 + name + printed PID bytes is delivered iff n <= 254, overruns the buffer iff n = 255, and ends the daemon iff n >= 256 |
| Limits.EveryFateIsMet | Src/Server.cpp:224-231 | each of the three is reachable with holders whose own Connect fits the wire |
| Limits.RejectedTextLength | Src/FirmwareFSM.cpp:6-20 | every FSM rejection text has at most 108 characters |
| Limits.DescriptionIsWhole | Src/HandlerImpl.cpp:30-32 | the one-byte size never truncates a description |
| Numerals.DecimalLength | Src/HandlerImpl.cpp:51-52 | a printed 32-bit PID has at most 11 characters, and the smallest exactly 11 |
| Numerals.DecimalReads | Src/HandlerImpl.cpp:51-52 | printed numbers have their highest digit first and a sign only below zero |
| Codec.PackedSizeExact | Src/RPCDefs.cpp:31-99 | the one-byte GetPackedSize is the true size modulo 256, equal to it exactly up to 255, and header plus payload fit exactly up to 254 |
| Codec.RoundTrip | Src/RPCDefs.cpp:33-118 | Deserialize after packing returns the same message, whatever follows it, for every true size up to 254 |
| Codec.NeedsEveryByte | Src/RPCDefs.cpp:51-118 | Deserialize consumes exactly the packed bytes: any shorter prefix is too short |
| Codec.PidRoundTrip | Src/RPCDefs.cpp:78-87 | all 32-bit PIDs survive the four little-endian bytes |
| Codec.PidIsLittleEndian | Src/RPCDefs.cpp:78 | byte k of a PID is its two's complement value divided by 256 to the k, modulo 256 |
| Codec.WireLayout | Src/RPCDefs.cpp:38-104 | the packed form byte by byte: sizes before their texts, then flag, name and PID |
| Codec.SerializeUser | Src/RPCDefs.cpp:74-79 | writes exactly the user's bytes through the moving pointer and nothing else |
| Codec.SerializeStatus | Src/RPCDefs.cpp:96-104 | writes exactly the status bytes, nested user included, and nothing else |
| Codec.Serialize | Src/RPCDefs.cpp:33-104 | writes exactly the packed bytes of any message at the pointer |
| Rpc.RPCProvider.RecvToBuffer | Src/RPC.cpp:6-17 | fills exactly the requested bytes from the stream for every chunking, or fails at its end |
| Rpc.RPCProvider.SendFromBuffer | Src/RPC.cpp:19-29 | puts exactly the requested bytes on the stream for every chunking |
| Rpc.RPCProvider.PackMsg | Inc/roki-mb-daemon/RPC.hpp:32-39 | leaves the message's frame at the head of the buffer, or writes past it exactly for messages over 254 bytes |
| Rpc.RPCProvider.PackError | Src/RPC.cpp:31-41 | refuses texts over 255 bytes, writes past the buffer for exactly 255, otherwise leaves the error frame in the buffer and sends it |
| Rpc.RPCProvider.RecvPackage | Src/RPC.cpp:43-62 | takes exactly the next frame off the stream, within the buffer, and marks errors |
| Rpc.RPCProvider.SendPackage | Src/RPC.cpp:64 | sends the frame the buffer holds, or reads past the buffer exactly when its size byte is 255 |
| Rpc.FrameLayout | Inc/roki-mb-daemon/RPC.hpp:32-39 | a frame is procedure, payload size, payload |
| Rpc.IdsTell | Inc/roki-mb-daemon/RPCDefs.hpp:17-32 | procedure ids are distinct and none is the error code; which kind of message each procedure takes and returns |
| Rpc.ParseStream | Src/RPC.cpp:43-62 | parsing any sequence of frames gives them back in order and leaves an unfinished tail alone |
| Rpc.SendAll | Src/RPC.cpp:19-29 | any messages become exactly their frames on the stream, in order |
| Rpc.ReceiveAll | Src/RPC.cpp:43-62 | repeated receives return exactly the frames sent, in order, and leave exactly the unread suffix |
| Session.ServeOne | Src/Server.cpp:209-231 | one turn of the handler loop, for every outcome: bytes that parse to one frame under the request's procedure and deserialize to the response, or to the error text twice; past the buffer; or, for texts over 255 bytes, an exception that ends the process |
| Session.SendError | Src/Server.cpp:227-229 | packing, sending and sending again puts the error frame on the stream twice, with the exact lengths at which it cannot |
| Session.Call | Inc/roki-mb-daemon/Client.hpp:43-53 | sends the request, takes whatever frame is next, raises its text on an error frame and otherwise returns the message it deserializes to; requests over 254 bytes do not fit |
| Session.SoftDisconnect | Src/Client.cpp:34-37 | puts its error frame on the stream twice |
| Session.SessionsAreGood | Src/Server.cpp:209-231 | in every state of every session, also between the two sends of an error, requests are served in order, and read, unread and owed frames are all reply frames in order |
| Session.CallGetsOwnReply | Inc/roki-mb-daemon/Client.hpp:43-53 | the j-th call gets the j-th frame, which answers a request no later than its own, and its own exactly when no earlier request failed |
| Session.CallIsTold | Inc/roki-mb-daemon/Client.hpp:43-53 | over any session each call gets, under the procedure of the request that owns its frame, bytes that deserialize to that request's response, or the text of its error |
| Session.OwnerIsExact | Src/Server.cpp:209-231 | frame j belongs to the request before which at most j frames were put on the stream, and after which more were |
| Session.UnreadFrames | Src/Server.cpp:224-231 | unread and owed frames number served plus errors less returned calls, and so one per error once all calls have returned |
| Session.WhoCanMove | Src/Server.cpp:209-231 | in every state of every session, exactly when a call can begin or return, a request be served and an error be sent again |
| Session.NoCallHangs | Inc/roki-mb-daemon/Client.hpp:43-53 | an open call can return, or the server can send |
| Session.StaleReply | Src/Server.cpp:224-231 | for any request and error text, a session in which the second request succeeds and its call returns with the first request's error |
| Session.RepliesCount | Src/RPC.cpp:40 | successes are on the stream once, errors twice |
| CleanupSafety.LookupSucceeds | Src/Server.cpp:69-79 | if no handler leaves its routine before its insert, every queued id is in the table, queued once and joined at most once, and the lookup never fails |
| CleanupSafety.PoliteIsOrderly | Src/Server.cpp:345-356 | that condition holds if clients connect only to ports they got in a hello and Accept fails only after the insert |
| CleanupSafety.LookupCanFailIff | Src/Server.cpp:57-80 | over every run in which the lookup has not failed yet, the handlers that have left can make it fail if and only if one of them left before its insert and cleanup comes to it before a shutdown lets cleanup leave |
| CleanupSafety.LookupFailsIff | Src/Server.cpp:70-72 | the lookup fails exactly when the handler at the front of the queue is not inserted yet |
| CleanupSafety.EarlyFailureCrashes | Src/Server.cpp:183-190 | an Accept failing before the insert can make the lookup fail |
| CleanupSafety.GuessedPortCrashes | Src/Server.cpp:336-351 | so can a client that connects to a guessed port before the hello and leaves |
| CleanupSafety.RunsAreExact | Src/Server.cpp:57-80 | table, queue, joined ids and mutex are exact in every reachable state |
| CleanupSafety.HandlersAreConserved | Src/Server.cpp:345-351 | spawned handlers = joined + registered + at most one not yet inserted |
| CleanupSafety.JoinNeverWaitsForMutex | Src/Server.cpp:58-79 | when cleanup joins under the mutex, the handler has released it, and at most one step of its own, needing no mutex, completes the join |
| CleanupSafety.ReleasedForGood | Src/Server.cpp:163-168 | a handler that released the mutex never takes it again |
| CleanupSafety.QueueShrinksWhileDraining | Src/Server.cpp:69-79 | while cleanup drains, no event lengthens the queue |
| CleanupSafety.HandlerTable.Drain | Src/Server.cpp:69-79 | the inner loop computes the drained tables, with the queue's length as measure, and throws exactly when it stops before the queue is empty |
| CleanupSafety.DrainIsRun | Src/Server.cpp:69-79 | from every reachable draining state the loop is a run of the machine to the same tables, and fails exactly when the queue holds a handler not inserted yet |
| CleanupSafety.DrainJoinsAll | Src/Server.cpp:69-79 | otherwise it joins exactly the queued handlers, in order, and takes exactly them off the table |
| CleanupSafety.LeftBehindAreLate | Src/Server.cpp:64-67 | after cleanup left, the handlers never joined are exactly those inserted later |
| CleanupSafety.AllJoinedIffNoneLate | Src/Server.cpp:296-320 | with dispatch stopped and cleanup gone, every handler was joined iff none was inserted after cleanup left |
| CleanupSafety.CleanExit | Src/Server.cpp:298-318 | if dispatch had stopped at cleanup's exit test, table and queue are empty from then on and every handler was joined exactly once |
| CleanupSafety.LateInsertLeaks | Src/Server.cpp:345-351 | without that order a handler can be inserted after cleanup left |
| CleanupSafety.OrderlyLife | Src/Server.cpp:323-356 | a whole orderly run exists: a client is served, its handler joined, and cleanup leaves after dispatch has stopped |
| Shutdown.ShutdownCanEndIff | Src/Server.cpp:296-320 | over every run in which cleanup has not left, the daemon alone can shut down, with no client moving and every handler joined exactly once, if and only if the lookup has not failed and cleanup is not draining a queue with a handler not inserted yet; otherwise cleanup never leaves |
| Shutdown.SweepEnds | Src/Server.cpp:303-318 | once dispatch is joined, cancelling and joining the handlers brings cleanup to its exit with everyone joined |
| HandlerLives.HandlersFollowRoutine | Src/Server.cpp:155-251 | over every run each handler has taken exactly the steps of its routine, and of the Defer, that its state says, in order |
| HandlerLives.WhoCanMove | Src/Server.cpp:155-356 | exactly when each step of dispatch and of a handler is possible |
| HandlerLives.CleanupCanMove | Src/Server.cpp:57-80 | exactly when cleanup can wake, join, finish a drain and leave, and main can go on |
| HandlerLives.JoinedInOrder | Src/Server.cpp:69-79 | over every run joined and queued ids together are the ids pushed so far, in order |
| HandlerLives.HelloComesAfterReady | Src/Server.cpp:345-356 | a hello is sent only after the handler's insert and its ready flag |
| HandlerLives.CancelsComeLast | Src/Server.cpp:296-306 | every cancellation comes after the signal, after dispatch stopped and after it was joined |
| Flash.BuildCommands | Scripts/Impls/BootloaderFlash.py:118-151 | succeeds exactly for images of at most 4096 pages, with one command per page at its offset, by the invariant i + curr_offset = 1024*i |
| Flash.BuildPage | Scripts/Impls/BootloaderFlash.py:127-145 | the word loop prints the page's bytes, each word reversed, by the invariant i + curr_offset = 1024*i + 4*q |
| Flash.FillWord | Scripts/Impls/BootloaderFlash.py:128-138 | one word is filled last byte first, with 0xFF past the end of the image |
| Flash.CommandRoundTrip | Scripts/Impls/BootloaderFlash.py:140-149 | every command has 2078 characters and decodes to its page of the padded image at its offset |
| Flash.DecodeUndoesEncode | Scripts/Impls/BootloaderFlash.py:118-151 | decoding all commands gives exactly the image padded with 0xFF to whole pages |
| Flash.PaddedKeepsImage | Scripts/Impls/BootloaderFlash.py:135-138 | the padded image is the image followed by fewer than 1024 bytes of 0xFF |
| Flash.SendPackages | Scripts/Impls/BootloaderFlash.py:166-192 | exits 0 exactly when every package was answered OK and the last line was read; sends in order and nothing after the first other answer |
| Flash.FlashImage | Scripts/Impls/BootloaderFlash.py:119-192 | exit 0 means the packages sent decode to the padded image, and a board that writes before answering OK holds it |
| Descriptors.UniqueValue.MoveFrom | Inc/roki-mb-daemon/Helpers.hpp:31-33 | takes the value and leaves -1 |
| Descriptors.UniqueValue.Assign | Inc/roki-mb-daemon/Helpers.hpp:35-38 | swaps the values, also onto itself |
| Descriptors.ClosedExactlyOnce | Inc/roki-mb-daemon/Helpers.hpp:21-59 | for any creations, moves and destructions, each descriptor has at most one owner, only open ones are closed, and all are closed exactly once per opening when no wrapper is left |
| Descriptors.RunsAreOwned | Src/Helpers.cpp:6-8 | the live wrappers' descriptors are exactly the open ones, one owner each, and opened = closed + open |
| Descriptors.OperationsDo | Inc/roki-mb-daemon/Helpers.hpp:21-59 | when each operation on wrappers is possible and what it does, a move onto itself included |
| Descriptors.SocketFactory.NewServerSocket | Src/Socket.cpp:28-50 | a failing bind or listen leaves the open descriptors unchanged; success adds one; the port is kept in 16 bits |
| Descriptors.SocketFactory.CreateHandlerSocket | Src/Server.cpp:253-266 | for any pattern of failures, ends at the first success with one new descriptor and the next port |
| Descriptors.HandOut | Inc/roki-mb-daemon/Server.hpp:59-79 | over any sequence of socket searches with at most 57455 attempts in all, the ports handed out are distinct, non-zero, 16-bit and above 8080 |
| Descriptors.PortsAreDistinct | Src/Server.cpp:253-266 | in the first 65536 attempts no port is handed out twice, whatever fails |
| Descriptors.PortsAboveIff | Src/Socket.cpp:28-50 | in these attempts all ports are above 8080 if and only if none is handed out after the first 57455 |

## Left out

- Src/CLI.cpp, Src/CLIMain.cpp: keyword dispatch and console output.
- Src/DaemonTools.cpp: daemonizing, environment and log files; its pipe messages are a weaker copy of the RPC framing.
- Real sockets, signals, signal masks and pthread unwinding: send and receive are a chunked byte stream, cancellation is an event that ends a handler after its Defer.
- C++ memory-model races on `ready`, `DoShutdown` and the unlocked iteration over `Handlers`; a dispatch cancelled while a handler still holds references to its stack.
- Liveness of the ready handshake, of `pause()` and of condition variables: notifications can be missed, so only safety is stated.
- `ClearPort`, `FillStringFromFd`, `BootloaderFind`: device and pipe reading, taken as steps that succeed or fail.
- Texts made by `strerror`: no length is claimed for them (`OsError`).
- Unknown procedure ids and the null responses of Ping, Shutdown and DebugBlock in `DispatchPackage`; sessions use listed procedures.
- The erase phase, GPIO, serial port discovery and sleeps of the flash script.
- What the program does once it has read or written past its 256-byte buffer: the model says exactly when that happens and nothing about what follows.
- Sessions in which an outcome overruns the buffer or ends the daemon: `Session.ServeOne` says when that is, and the session theorems speak of the turns before it.
- CleanupSafety.QueueShrinksWhileDraining: says nothing about how long a join takes.
- `Defer` is folded into the events and methods that run it.

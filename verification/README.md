# dv8: message framing, scheduler and threads

A Dafny model of the runtime logic that dv8 writes in JavaScript, `src/main.js`: how threads exchange messages over a
byte stream, how `process.nextTick` schedules functions on the event loop, and how `process.spawn` creates threads.

| module | file | content |
|---|---|---|
| `Bytes` | `Bytes.dfy` | bytes, big-endian integers, stores into a buffer; stores of a record's fields commute |
| `Frames` | `Frames.dfy` | the wire format and a byte-at-a-time automaton that reads it, the specification of the parser |
| `MessageParser` | `Parser.dfy` | class `Parser`: `Read` and `Write` with the fields, buffers and loop of the source; reads and writes composed |
| `Ipc` | `Ipc.dfy` | a connection: sender, byte stream and receiver as a transition system, and class `Connection` |
| `Handshake` | `Handshake.dfy` | the start-up record of a thread, written and decoded |
| `Tasks` | `Tasks.dfy` | queued functions as trees; level order and tick counts |
| `Runtime` | `Runtime.dfy` | queue, idle callback and thread table; all runs of events; class `Process` |
| `Buffers` | `Buffers.dfy` | the loops of `readFile` and `activeHandles` |

The main results:

- **The parser undoes the writer, for every cut of the stream.** `Parser.Read` moves as the automaton does
  (`Read`), and what the automaton delivers is the only way to write the bytes as frames followed by a part of a frame
  (`ReadsExactly`). Over every run of a connection the bytes delivered, held and on their way are the bytes sent
  (`RunAccounted`), the events of a run alone determine where each byte is (`RunExactly`), and the frames delivered are
  the first of those sent (`DeliveredInOrder`).
- **Three places where this does not give what a caller would expect, each with its exact condition.** A payload of
  65536 bytes or more is cut to its length modulo 65536 and the rest is read as frames (`FaithfulExactlyWhenFits`,
  `OversizeTruncated`). A frame without payload is delivered only when a further byte arrives (`Prompt`). The id on a
  thread's messages is the id of the thread only for ids below 256 (`ThreadIdentity`).
- **The scheduler runs forests of functions in level order, also when functions throw** (`SettlesInLevelOrder`): one
  tick for each level, and at most one more for each throw (`TickCount`).
- **Thread starts are attempted once each, in the order of `spawn`** (`StartsInOrder`), also for spawns made from
  queued functions. A thread that could not be started never leaves the thread table (`LeavesTableExactlyIfStarted`).

## Assumptions

- Text is one byte per character. `Buffer.write(s, off)` stores the bytes of `s`, without a bounds check, and
  `Buffer.read(off, n)` returns `n` bytes (`src/builtins/buffer.cc:120-147`). JSON texts are opaque byte sequences.
- A `DataView` is big-endian by default, reduces numbers modulo the width of the field, and raises a `RangeError` for a
  field outside the buffer (section 25.3 of ECMA-262, 11th edition).
- The socket is a reliable first-in first-out stream. `sock.write` has taken or copied the frame when it returns
  (`src/modules/socket/socket.cc:582-667`), and a chunk holds at least one byte and at most as many as the receive
  buffer (`src/modules/socket/socket.cc:219-226`).
- `onMessage` neither throws, nor calls `read`, nor changes the receive buffer.
- A queued function is a finite tree of what it will call. A run that never ends is covered through its finite parts:
  up to any moment only finitely many functions have run. A function that throws part way through is one that makes
  fewer calls.
- A callback that throws does not end the event loop (`src/modules/loop/loop.cc:198-212`). `thread.start` reports
  completion once for each start that returned 0, and never otherwise (`src/modules/thread/thread.cc:99-151, 189-227`).

## Model

| member | source | states |
|---|---|---|
| Bytes.StoreOrderIrrelevant | src/main.js:481-492 | writes to fields that do not overlap and leave no gap give the same buffer in any order, whatever it held before |
| Frames.FeedSplit | src/main.js:90-132 | reading `a + b` at once, or `a` and then `b`, ends in the same state and delivers the same frames |
| Frames.ChunkingIrrelevant | src/main.js:90-132 | the same for every cut of a stream into any number of chunks, empty ones included |
| Frames.FeedConserves | src/main.js:90-132 | frames delivered, encoded again, and the bytes then held are exactly the bytes held before and read |
| Frames.ReadsExactly | src/main.js:90-132 | both directions: a reading is the only decomposition of held and read bytes into fitting frames and held bytes in which no empty frame comes last with nothing after it |
| Frames.Prompt | src/main.js:94-131 | every frame that has arrived is delivered, except an empty one whose header ends the input; it is delivered by the next byte, which still becomes the next thread id |
| Frames.OversizeTruncated | src/main.js:139-156 | exactly what is read when a payload does not fit: the frames before it, itself cut to its length modulo 65536, and then whatever the cut-off bytes and all that follows read as |
| Frames.FaithfulExactlyWhenFits | src/main.js:134-160 | reading all that was sent delivers only sent frames, in order, if and only if every payload is below 65536 bytes |
| Frames.OneFrameRoundTrip | src/main.js:134-160 | one frame alone comes back exactly if its payload has between 1 and 65535 bytes |
| MessageParser.Parser.Read | src/main.js:90-132 | for every chunk and start offset: resting invariant kept, state and delivered messages those of the automaton, opcode 3 payloads in place in the chunk from the first byte that came with it; the loop ends |
| MessageParser.Parser.Write | src/main.js:134-159 | for every opcode and offset, byte by byte: thread id, or process id if that is 0, modulo 256; opcode; length in two bytes; text; everything else unchanged; the distance to the next frame returned; the header stored alone for opcode 3; and what a `RangeError` leaves behind |
| MessageParser.Parser.constructor | src/main.js:74-88 | a new parser rests before a frame and has delivered nothing |
| MessageParser.StateShowsFields | src/main.js:91-131 | equal states mean equal position and equal partial header and payload in the parser's fields |
| MessageParser.BufferFrameInPlace | src/main.js:152-156 | storing the header of opcode 3 before a pre-filled payload makes a complete frame of it |
| MessageParser.BatchRoundTrip | src/main.js:134-160 | frames stored one behind the other read back as those frames, exactly when all fit and the last has a payload |
| MessageParser.WriteBatch | src/main.js:134-160 | calls of `Write`, each at the distance the previous one returned, store the frames one behind the other and change nothing else |
| MessageParser.WriteThenRead | src/main.js:90-160 | such calls and then one call of `Read` give one message for each frame, exactly when all fit and the last has a payload; buffer messages show their whole payload in place |
| MessageParser.ReadBothWays | src/main.js:90-132 | on two parsers in equal states, one call of `Read` for `a + b` and calls for `a` and for `b` end in equal states and hand on the same messages but for `offset` |
| Ipc.RunAccounted | src/main.js:425-438 | over every run of sends and arrivals no byte is lost, repeated or reordered: what was delivered, held and is on its way is what the send events of the run encode, and what is on its way has the length that sends and arrivals leave |
| Ipc.RunExactly | src/main.js:425-438 | the whole state after any run from its events alone: the last `Pending` bytes sent are on their way, and the receiver is where reading all the others leads |
| Ipc.DeliveredInOrder | src/main.js:425-438 | over every run in which all payloads fit, the delivered frames are a prefix of the frames that its events send |
| Ipc.WhenAllArrived | src/main.js:460-476 | with nothing left on the way: only frames that the run's events sent were delivered if and only if all fit, and then all of them but a last empty one |
| Ipc.EverythingCanArrive | src/main.js:437-437 | from every run one more arrival empties the stream, and the receiver has then read all that was sent |
| Ipc.Connection.SendObject | src/main.js:432-432 | the encoding of the frame with opcode 1 and the sender's id is appended to the stream, the frame to those sent; nothing else changes; nothing at all if the header does not fit |
| Ipc.Connection.SendString | src/main.js:433-435 | the same for opcode 2 |
| Ipc.Connection.SendBuffer | src/main.js:436-436 | the same for opcode 3, whose payload is what the send buffer held behind its first four bytes |
| Ipc.Connection.OnRead | src/main.js:437-437 | the first `n` bytes leave the stream; new frames, encoded, and what the receiver then holds are what it held and these bytes; the new messages are the new frames, opcode 3 payloads in place |
| Ipc.Connection.ReceivedInOrder | src/main.js:422-438 | at any moment, for any buffer size, if what was sent fits, the messages received carry the first of the frames sent |
| Ipc.Connection.BufferKeepsFit | src/main.js:422-423 | send buffers up to 65539 bytes, so also those of the default size, can only send what fits |
| Handshake.WriteRecord | src/main.js:481-492 | the writes of `spawn` fill the whole buffer: every byte of id, descriptor, both lengths and both texts at its place |
| Handshake.AnyOrder | src/main.js:481-492 | the six writes give that record in any order and over any buffer content |
| Handshake.FieldsTile | src/main.js:481-492 | the six fields are disjoint, inside the record, and cover every byte of it |
| Handshake.RecordRoundTrip | src/main.js:410-421 | the worker decodes its id modulo 256, the descriptor modulo 2^32, and both texts in full, for all texts |
| Handshake.DecodesExactly | src/main.js:410-421 | both directions: a record decodes to given values if and only if it begins with the six fields that say so |
| Handshake.ThreadIdentity | src/main.js:487-488 | from `spawn` to `onMessage`: the id on a worker's message is its thread id if and only if that is below 256; for ids divisible by 256 it is the process id modulo 256, as on messages of the main process |
| Tasks.FifoIsLevelOrder | src/main.js:352-374 | a queue whose functions queue further ones runs a forest level by level, each level in the order of its trees |
| Tasks.FifoRunsAll | src/main.js:352-374 | every node of the forest runs as often as it occurs in it |
| Tasks.TickCount | src/main.js:355-371 | the number of ticks is the height of the forest if no node throws, other than starts with status 0; otherwise at most one more for each that does, and at least one for each |
| Tasks.FailCountsThrows | src/main.js:358-366 | the throws that tick counts speak of are the nodes marked so, other than starts with status 0 |
| Tasks.TickRunsLevel | src/main.js:355-371 | if no node throws, other than starts with status 0, the queue before tick `k + 1` is exactly level `k` |
| Runtime.TickEffect | src/main.js:355-371 | a tick runs the functions queued when it began up to the first that throws, told from the fields of the queued functions; later ones and the rest wait, the rest first; the callback goes exactly if nothing threw and nothing waits |
| Runtime.HeadEffect | src/main.js:358-366 | the function at the head puts exactly its own calls at the end of the queue, in their order; the start of a thread that returns 0 puts none |
| Runtime.EventEffect | src/main.js:352-374 | what each event does to queue, history, table and tick count; a completion removes the thread and queues the calls of `onComplete` |
| Runtime.SchedulerSafe | src/main.js:352-374 | over every run: the idle callback is registered exactly when `idleActive`, never twice, always while the queue is not empty; functions queued are those taken, in order, and those waiting |
| Runtime.QueuedExactly | src/main.js:352-374 | over every run, what was ever queued is what the events asked for and what the functions that ran have called, with multiplicity |
| Runtime.SwitchedOffOnlyWhenEmpty | src/main.js:367-370 | over every run, only a tick in which no queued function throws, and that leaves an empty queue, switches the callback off |
| Runtime.StartsInOrder | src/main.js:487-500 | over every run, ids go up from 1, starts are attempted in that order and once each, the rest are queued, and every thread boots with the values it was spawned with |
| Runtime.ThreadTable | src/main.js:487-498 | over every run, the table holds exactly the ids spawned and not completed, each with the id and record of its queued start |
| Runtime.LeavesTableExactlyIfStarted | src/main.js:495-499 | over every run, a thread whose start was attempted can leave the table if and only if the start returned 0; and it can do so just once |
| Runtime.CompletedExactly | src/main.js:495-498 | over every run, the threads recorded as completed are those whose completion the run reports while they run |
| Runtime.IdlesSettle | src/main.js:355-371 | from any state that keeps the invariant, the idle callback runs everything in level order and is then gone, after exactly `Ticks` turns and not before |
| Runtime.SettlesInLevelOrder | src/main.js:352-374 | after any history: all queued functions run once in level order, in turns between height and height plus throws, and all threads ever spawned have had their start attempted once in order; a callback left over by a throw goes in one turn |
| Runtime.Settles | src/main.js:352-374 | the same from any state that keeps the invariant |
| Runtime.TurnRunsLevel | src/main.js:355-371 | if no node throws, other than starts with status 0, turn `k + 1` runs exactly the functions at depth `k` |
| Runtime.Process.NextTick | src/main.js:352-374 | every field afterwards, with the callback registered only if it is not yet; invariant kept |
| Runtime.Process.Spawn | src/main.js:449-502 | nothing changes if `sock.open` fails; otherwise a new id, a table entry with the record for that id, and a queued start behind all others; nothing runs; invariant kept |
| Runtime.Process.Invoke | src/main.js:358-366 | a function queues exactly its calls and throws if it is marked so; the start of a thread that returns 0 does neither |
| Runtime.Process.RunQueue | src/main.js:356-366 | the loop over the length snapshot, left early by a throw, comes to what `DoDrain` says |
| Runtime.Process.Tick | src/main.js:355-371 | on the fields: which functions left the queue, whether one of them threw and which, what waits in which order, and when the callback goes; invariant kept |
| Runtime.Process.Complete | src/main.js:495-498 | the thread leaves the table, the calls of `onComplete` are queued behind all others, nothing runs; invariant kept |
| Runtime.Process.Handle | src/main.js:352-374 | each event, done by the methods above, is the step of the transition system; invariant kept |
| Runtime.Process.RunLoop | src/main.js:401-407 | any events in any order, turns of the idle callback among them, and then turning until the callback is gone: the loop ends in the state of that run, settled in level order |
| Buffers.ReadFile | src/main.js:53-69 | for files of any size and every run of reads that ends, short reads and errors included: the text is what the reads brought in, the first `size` bytes of the file while offsets stay below 4 GiB, and the whole file if the last read returned 0 |
| Buffers.PiecesArePrefix | src/main.js:60-65 | the bytes that any reads bring in are the beginning of the file until offsets wrap around |
| Buffers.EndFoundExactlyBelow4GiB | src/main.js:60-65 | a run of the loop whose last read returns 0 exists if and only if the file is smaller than 4 GiB, as offsets have 32 bits |
| Buffers.LoopEndsExactlyBelow4GiB | src/main.js:61-65 | without read errors the loop can go on for any number of turns if and only if the file has 4 GiB or more; below, it has at most as many turns as the file has bytes |
| Buffers.ActiveHandles | src/main.js:333-348 | the loop recovers exactly the handles listed, for every list with room for two bytes behind it |
| Buffers.EndsExactlyWithRoom | src/main.js:339-342 | of the lists the native code can write, the loop stops for exactly those with room for two bytes behind them, and then with the handles listed |

## Left out

- Multi-byte characters: `write` counts code units and `read` decodes each chunk by itself, so other texts do not survive.
- `JSON.stringify` and `JSON.parse`: the texts are inputs and outputs of the model.
- The stale `offset` of an earlier opcode 3 message, which is copied into later messages of other opcodes: the model copies it too but states nothing about it.
- Exceptions from `onMessage`, and calls of `read` from within it.
- MessageParser.Parser.Write: text that does not fit the send buffer is excluded, because `Buffer.write` then writes outside the buffer.
- Ipc.Connection: the two directions of a socket pair are two connections; they share no field that both use. A socket that is closing or fails is not modelled.
- Ipc.Connection.SendObject: text that does not fit the send buffer is excluded, as for `Write`.
- Ipc.Connection.SendString: text that does not fit the send buffer is excluded, as for `Write`.
- Ipc.Connection.SendBuffer: sizes that exceed the send buffer are excluded. The source still writes the header and has the socket send `size + 4` bytes, of which those behind the end of the buffer are not determined.
- Runtime.Process.RunLoop: what timers and sockets do shows only as the calls of `nextTick` and `spawn` made from them, in any order.
- Buffers.ReadFile: a run that does not end is not one of the method; `LoopEndsExactlyBelow4GiB` says when there are such runs. Only a read error can end the loop for files of 4 GiB and more. The limit V8 sets on the length of the joined text is not modelled.
- Buffers.ActiveHandles: lists with room for one byte only are excluded, as the loop does not stop for them, see `EndsExactlyWithRoom`; so are lists that do not fit at all, which native code writes beyond the buffer.
- `setTimeout`, `setInterval`, `repl`, console, exception printing and resource usage: user interface or single calls of native code.
- The size of the buffers (`THREAD_BUFFER_SIZE`, 1024 by default) is a parameter; reading it from the environment is not modelled.
- `require`, `runScript` and `evalScript`: evaluation of source text.
- `src/base.js`, `initModule.js`, the C++ modules and everything under `deps`: native or vendored code behind the interfaces assumed above.

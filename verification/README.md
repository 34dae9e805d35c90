# The snova mux transport, modelled and proved in Dafny

snova multiplexes many TCP streams over a few encrypted connections between a client and a server. This project models
the parts of it that carry the load and proves what they promise, for every input, every interleaving of coroutines and
every way the network cuts the bytes. `dafny verify dfyconfig.toml` checks all of it.

## What is modelled

**Frames.** `Wire` and `MuxEvents` hold bytes, the eight-byte head and the ten event classes; `Cipher` says what Encrypt
and Decrypt compute under a counter nonce, `CipherContext` is the object that does it with its two counters and scratch
buffers. The AEAD cipher and nanopb are functions known only by their laws: opening undoes sealing, sealing adds sixteen
bytes and only sealed bytes open; decoding undoes encoding, and a delimited message has 1 to 530 bytes.

**A connection.** `ReadPath` is the reassembly of events in the fixed 16384-byte array. `ChannelMutex` is the coroutine
mutex: a flag, a waiter count and an asio channel of capacity one, as steps between suspension points, stale tokens and
barging included. `MuxLink` puts any number of writer coroutines behind that mutex, in front of one counter, one shared
write buffer and a wire of bytes, and lets any write fail at any byte. `Handshake` joins two directions and two endpoints
and adds the authentication that switches all four counters in midstream; `HandshakeProgress` shows that it can complete.
A run is any list of steps; a step that is not enabled does nothing, so statements about all lists are statements about
all schedules. `WriteOrder` follows each call of Write to the frame made for it.

**Streams.** `StreamDelivery` has the stream table, each stream's data channel and the read loop that dispatches events;
`LateRegistration` says exactly when a stream registered late reads wrongly, and `StreamOpening` why that does not happen
at the end that opens it. `StreamClose` has the mutual recursion of WriteEvent and Close, `CloseExchange` the two ends of
a stream and the close events between them. `Sessions` has the slot tables and the choice of the connection to write to,
`ClientPool` the life of a client's connections.

**The rest.** `TimeWheel`, `WebSocket` (framing over `BufferedIO` and `read_exact`), `Sni`, `IoBufPool`, `NetAddress`.

Objects that the program updates in place are classes here, and loops are loops. A coroutine is cut at its suspension
points: each stretch is a step of a machine whose runs the theorems are about, and the mutex, the stream table, the
client pool and the wheel also have an object with one method per stretch, proved to be that step.
What the program takes from outside (sizes of reads, the clock, random numbers, results of writes, active times, the
spare capacity of a vector) is a parameter or a nondeterministic choice.

## What the code does that one would not expect

- Encrypt seals bodies of 8321 to 8416 bytes (8432 in the clear) that every peer refuses: `Cipher.RoundTripExactlyWhen`.
- After Close, Lock excludes nobody: `ChannelMutex.LockExcludesExactlyWhileOpen`.
- A coroutine can stay parked in Unlock with the mutex free and nobody waiting: `ChannelMutex.ParkedSenderExample`;
  `UnlockParksExactlyWhen` and `ParkedExactlyUntilReleased` say when, and for how long.
- After a failed write the connection stays in use, and the next frame follows a torn one: what was sealed before is
  still delivered, `Handshake.DeliveredIsPrefixOfWritten`; nothing is known of what comes after.
- A timer fires early when its active time is ahead of the captured time, since the subtraction is unsigned
  (as when an earlier callback of the same tick suspends while the connection is in use): `TimeWheel.DueExactlyWhen`,
  `FiresEarly`.
- A timer can be up to 181 ticks, about 18 seconds, late, and no more: `TimeWheel.FiresWithin181Ticks`,
  `Fires181TicksLate`.
- A chunk that is dispatched before the relay coroutine has registered its stream is dropped, and the stream reads from
  the next one on: `LateRegistration.PrefixForeverExactlyWhen`. The end that opens a stream is safe from it:
  `StreamOpening.OpenerMissesNothing`.
- An empty host name at the very end of its extension gives -5, elsewhere success with an empty name:
  `Sni.FindsHostName`.
- A client that reads a retire request, and one whose new connection ends before its slot is assigned, keep a dead
  connection in the pool until it expires: `ClientPool.CleanExactlyWhen`, `SpoiledUntilExpiry`.
- A host with a colon, such as a bare IPv6 address, does not survive printing and parsing; a path with "://" in it does
  only when there is no schema and not exactly one: `NetAddresses.ParsePrintedExactlyWhen`.

## Model

| member | source | states |
|---|---|---|
| `MuxEvents.HeadRoundTrip` | snova/mux/mux_event.cc:39-72 | Decoding the eight bytes of an encoded head gives the head back, whatever bytes follow |
| `MuxEvents.HeadRoundTripBack` | snova/mux/mux_event.cc:39-72 | Encoding a decoded head gives the eight bytes back: heads and eight-byte strings correspond one to one |
| `MuxEvents.HeadBytes` | snova/mux/mux_event.cc:39-54 | The eight bytes of a head: id and length high byte first, the type, the flags with the clear-body bit lowest |
| `MuxEvents.TypeNumbers` | snova/mux/mux_event.h:75-86 | The number of each of the ten event classes |
| `Wire.BigEndianAt` | snova/mux/mux_event.cc:39-54 | Byte i of an encoded number is its i-th digit in base 256 from the left |
| `MuxEvents.NewBody` | snova/mux/mux_event.cc:74-124 | An event object exists exactly for the types 1 to 9 and 100, and it has the type asked for |
| `MuxEvents.BodyRoundTrip` | snova/mux/mux_event.cc:126-304 | For all ten event classes, decoding the encoded body gives the body back when the head carries its length |
| `Cipher.Open` | snova/mux/cipher_context.cc:210-306 | "Need more" is answered only for fewer than 8360 bytes; an accepted frame has 24 to 8360 bytes, no more than the input, and its event has the class its head names |
| `Cipher.SealSucceedsExactlyWhen` | snova/mux/cipher_context.cc:117-209 | Encrypt into the 8456-byte write buffer succeeds exactly for encodable messages and for chunks up to 8416 bytes (8432 in the clear), sets the length field, and yields the two sealed parts |
| `Cipher.SealThenOpen` | snova/mux/cipher_context.cc:117-306 | From equal counters Decrypt(Encrypt(e) followed by anything) is e with exactly the frame consumed, in both body modes |
| `Cipher.RoundTripExactlyWhen` | snova/mux/cipher_context.cc:243-247 | The round trip holds if and only if the body has at most 8320 bytes; every longer frame that Encrypt produces is refused as invalid |
| `Cipher.ChunkRoundTripExactlyWhen` | snova/mux/cipher_context.cc:117-306 | In plain numbers for every chunk that Encrypt seals: the bytes of the frame in both body modes, its length, and that the peer accepts it if and only if the chunk has at most 8320 bytes |
| `Cipher.BodilessFrames` | snova/mux/mux_event.cc:183-193 | A close and a retire request are a sealed head and nothing else |
| `Cipher.SealErrors` | snova/mux/cipher_context.cc:117-209 | Which error Encrypt reports for a chunk too long for its buffer, one too long once sealed, and a message that does not encode |
| `Cipher.OpenErrors` | snova/mux/cipher_context.cc:218-306 | Which error Decrypt reports: a head that does not authenticate, exactly then; a length above 8320; an unknown type; a body that does not authenticate |
| `Cipher.OversizedChunkExample` | snova/mux/cipher_context.cc:243-247 | A chunk of 8321 bytes is sealed and then refused by the peer |
| `Cipher.StrictPrefixNeedsMore` | snova/mux/cipher_context.cc:211-257 | On every strict prefix of an acceptable frame Decrypt asks for more |
| `Cipher.OpenIgnoresSuffix` | snova/mux/cipher_context.cc:210-306 | Once Decrypt gives an answer other than "need more", later bytes do not change it |
| `Cipher.AcceptedHeadWasSealed` | snova/mux/cipher_context.cc:210-242 | The front of an accepted frame is the sealed head of the event returned |
| `Cipher.AcceptedChunkWasSealed` | snova/mux/cipher_context.cc:210-306 | Only bytes that Encrypt produces for that very event under that very counter are accepted as a data chunk |
| `CipherContexts.CipherContext.Encrypt` | snova/mux/cipher_context.cc:117-209 | Through its scratch buffer, in place: the frame stands at the front of the output and the counter moves by one; on an error the code is returned and the counter stays |
| `CipherContexts.CipherContext.Decrypt` | snova/mux/cipher_context.cc:210-306 | The event, its frame length and a counter moved by one; "need more" and errors leave the counter alone |
| `ReadPath.MuxConnection.MoveToFront` | snova/mux/mux_connection.cc:252-270 | The overlapping move: the front of the buffer becomes the window as it was |
| `ReadPath.MuxConnection.ReadEventFromBuffer` | snova/mux/mux_connection.cc:252-270 | One event off the window, or the window moved to the front of the buffer, or the error of Decrypt |
| `ReadPath.MuxConnection.Turn` | snova/mux/mux_connection.cc:271-306 | Whenever another read is needed, fewer than 8360 bytes are kept and at least 8025 are free, so the append stays inside the 16384-byte array, and no byte is lost |
| `ReadPath.MuxConnection.ReadEvent` | snova/mux/mux_connection.cc:271-306 | Terminates, and for every splitting of the stream into reads gives the answer Decrypt gives for the whole unsplit stream, leaving exactly the rest of it |
| `Transports.Transport.AsyncRead` | snova/io/tcp_socket.cc:39-43 | A nonempty front of what is to come, of a size nobody controls, behind what the buffer holds; or an error |
| `ReadPath.AnswerForStream` | snova/mux/mux_connection.cc:271-306 | The answer for what has arrived is the answer for the whole stream unless it is "need more" and bytes follow |
| `ChannelMutex.StepKeepsInv` | snova/util/async_channel_mutex.cc:35-66 | Every stretch of Lock, Unlock and Close keeps: each coroutine in one place, an exact waiter count, one holder while open, no forgotten waiter |
| `ChannelMutex.EveryRunKeepsInv` | snova/util/async_channel_mutex.cc:35-66 | The same in every state that any interleaving reaches |
| `ChannelMutex.MutualExclusionUntilClose` | snova/util/async_channel_mutex.cc:39-66 | Until Close, two coroutines between Lock and Unlock are the same coroutine, and the flag is set |
| `ChannelMutex.LockExcludesExactlyWhileOpen` | snova/util/async_channel_mutex.cc:39-54 | Lock lets a caller straight in while open if and only if nobody is inside, and always after Close |
| `ChannelMutex.TwoInsideAfterClose` | snova/util/async_channel_mutex.cc:40-42 | A run that has two coroutines inside after Close |
| `ChannelMutex.NoLostWakeup` | snova/util/async_channel_mutex.cc:39-66 | While open, the count is parked plus woken waiters; a free mutex with a parked waiter has a woken one; and any woken one gets in when it resumes |
| `ChannelMutex.WaitersAreServed` | snova/util/async_channel_mutex.cc:39-66 | From every reachable state with a waiter, at most two further steps put a waiter inside |
| `ChannelMutex.WaitersMoveUp` | snova/util/async_channel_mutex.cc:39-66 | Parked waiters are served in order: no step moves one back, and each Unlock wakes the first and moves the others up |
| `ChannelMutex.UnlockParksExactlyWhen` | snova/util/async_channel_mutex.cc:55-66 | While open, Unlock suspends if and only if somebody counts as waiting, nobody is parked in a receive and a token is left in the buffer |
| `ChannelMutex.SenderReleasedExactlyWhen` | snova/util/async_channel_mutex.cc:39-66 | A coroutine parked in the send of Unlock goes on if and only if the step is Close, or a Lock that finds the mutex taken while the coroutine is first in line |
| `ChannelMutex.ParkedExactlyUntilReleased` | snova/util/async_channel_mutex.cc:39-66 | Over every continuation: it is parked all the way if and only if no such step is taken |
| `ChannelMutex.ParkedSenderExample` | snova/util/async_channel_mutex.cc:55-66 | A run that leaves such a coroutine parked with the mutex free and nobody waiting |
| `ChannelMutex.AsyncChannelMutex.Lock` | snova/util/async_channel_mutex.cc:39-54 | Keeps the invariant; the caller is inside exactly if the mutex was free or closed, on an open one alone; else it waits behind the same holder and is counted |
| `ChannelMutex.AsyncChannelMutex.ResumeLock` | snova/util/async_channel_mutex.cc:43-53 | Keeps the invariant; a woken waiter gets in exactly if the mutex is free, alone and uncounted; else it waits again, the count as before |
| `ChannelMutex.AsyncChannelMutex.Unlock` | snova/util/async_channel_mutex.cc:55-66 | Keeps the invariant; an open mutex is then free with nobody inside, and if anybody waits, somebody is awake |
| `ChannelMutex.AsyncChannelMutex.Shutdown` | snova/util/async_channel_mutex.cc:35-38 | Keeps the invariant; nobody is left parked, every parked waiter resumes with an error and every parked sender goes on, and who is inside stays |
| `MuxLink.FrontOfStream` | snova/mux/mux_connection.cc:252-306 | A reader in step sees in any part of the stream the next event, or asks for more; never anything else |
| `MuxLink.PeekIsNextOfLog` | snova/mux/mux_connection.cc:271-306 | What a reader in step, not past a failed write, takes is the next event of the log; with nothing under way it has taken all; with nothing on the wire it gets all that precedes a failed write |
| `MuxLink.AfterLockKeepsInv` | snova/mux/mux_connection.cc:411-446 | Encrypting into the shared buffer after Lock keeps: bytes read, on the wire and left in the buffer are the frames in flight, whole and in order |
| `MuxLink.PushKeepsInv` | snova/mux/mux_connection.cc:434-437 | So does each partial write of the buffer |
| `MuxLink.FinishWriteKeepsInv` | snova/mux/mux_connection.cc:434-446 | So does the end of a write and its Unlock |
| `MuxLink.FailWriteKeepsInv` | snova/mux/mux_connection.cc:434-442 | So does a write that fails at any byte: the frames before the torn one stay whole and in order, whatever is sealed and written behind it |
| `MuxLink.TakeKeepsInv` | snova/mux/mux_connection.cc:271-306 | So does taking an event by a reader whose counter is that of the next frame |
| `Handshake.EveryRunKeepsInv` | snova/mux/mux_connection.cc:122-214 | Over every run of both endpoints from the first greeting on: both directions keep their invariant and all counters follow the schedule default, iv, iv+1, ... |
| `Handshake.DeliveredIsPrefixOfWritten` | snova/mux/mux_connection.cc:252-446 | For any interleaving of writers at both ends, any cutting of the bytes and any failing writes: the events read are the first ones sealed, in lock order, up to the first failed write; up to there no read meets a damaged frame; with nothing on the wire all of them have been read |
| `Handshake.CountersInLockStep` | snova/mux/mux_connection.cc:122-214 | In every reachable state both counters of a direction are known: default plus the frames so far before an end is up, the schedule afterwards; every frame is sealed under the counter its reader will have; with both ends up the encrypt counter is the peer's decrypt counter plus the frames in flight (mod 2^64), pipelined frames included |
| `Handshake.BufferIsStableWhileWriting` | snova/mux/mux_connection.cc:411-446 | While a coroutine writes out the shared buffer it is the only one, and no step changes the buffer or seals another event |
| `Handshake.StepRefinesQueue` | snova/mux/mux_connection.cc:252-446 | Each step of the connection leaves a direction alone, appends the event of the coroutine that got the mutex, or removes the first: it refines a queue, until the reader comes to a failed write |
| `Handshake.WaitingEventIsKept` | snova/mux/mux_connection.cc:411-417 | A waiting coroutine keeps its event until it resumes itself |
| `Handshake.DrainDelivers` | snova/mux/mux_connection.cc:271-306 | Nothing is lost: once the writers are quiet, some further reads deliver all that was written, or all before the first failed write |
| `HandshakeProgress.GreetingGoesOut` | snova/mux/mux_connection.cc:122-214 | From any state with the writing half idle, an uncontended greeting ends on the wire as one frame and moves its sender to the next phase, the server onto the new counter |
| `HandshakeProgress.GreetingComesIn` | snova/mux/mux_connection.cc:122-214 | The peer reads exactly that greeting and moves on, the client onto the new counter |
| `HandshakeProgress.HandshakeCompletes` | snova/mux/mux_connection.cc:122-214 | If the two greetings encode, a run brings both ends up with all four counters at the negotiated value: the statements about ready endpoints are not empty |
| `HandshakeProgress.GreetingDecides` | snova/mux/mux_connection.cc:127-213 | In any state: the server goes on if and only if it reads an authentication request of an accepted role, the client comes up, on the counter it is told, if and only if it reads a positive answer |
| `HandshakeProgress.FailedForever` | snova/mux/mux_connection.cc:122-214 | An endpoint that has given up stays so and writes nothing more, in every continuation |
| `HandshakeProgress.RefusedIsShutOut` | snova/mux/mux_connection.cc:140-145 | After a refusal, in every continuation the server has given up without writing anything and the client never comes up |
| `HandshakeProgress.ReadyMeansGreeted` | snova/mux/mux_connection.cc:122-214 | In every run an end that is up has read the other's greeting, and the server is past its check only if it accepted |
| `WriteOrder.EveryWriteIsSealedOnce` | snova/mux/mux_connection.cc:411-446 | Conservation: in every run, what a coroutine asked to write is what was sealed for it, in order and once each, plus the one event it may be waiting with |
| `WriteOrder.StreamWritesInOrder` | snova/mux/mux_stream.cc:142-161 | With one writing coroutine, the chunks of a stream on the connection are those of its Write calls, in order, up to one still waiting |
| `WriteOrder.ReadsFollowWrites` | snova/mux/mux_stream.cc:117-161 | End to end: the Reads of a stream return the chunks of the peer's Write calls, in call order and without gap, from the first one dispatched after registration on |
| `StreamDelivery.OfferFlow` | snova/mux/mux_stream.cc:117-129 | Offer appends the chunk to what the stream has taken in, wherever the chunk comes to stand |
| `StreamDelivery.ReadFlow` | snova/mux/mux_stream.cc:130-140 | Read takes nothing away from and adds nothing to what the stream has taken in |
| `StreamDelivery.ShutFlow` | snova/mux/mux_stream.cc:162-170 | Close keeps a prefix of it |
| `StreamDelivery.EveryRunKeepsInv` | snova/mux/mux_connection.cc:349-382 | In every run of dispatches, registrations, reads and closes, each stream has taken in a run of its own chunks; all since registration while it is registered |
| `StreamDelivery.ReadsArePrefixOfWrites` | snova/mux/mux_stream.cc:117-182 | What the Reads of a stream returned are its peer's chunks from registration on, in order, without gap, and no other stream's |
| `StreamDelivery.ReadsArePrefixOfPeerWrites` | snova/mux/mux_connection.cc:252-382 | The same, with the read loop fed by a connection of two endpoints |
| `LateRegistration.MissedExactlyWhenEarly` | snova/mux/mux_connection.cc:359-382 | In every run, a stream has missed chunks if and only if a step of the run dispatched one of its chunks while it was not registered |
| `LateRegistration.PrefixForeverExactlyWhen` | snova/mux/mux_connection.cc:332-382 | From every reachable state with the stream registered and no close of it under way: its Reads return a prefix of the peer's chunks in every continuation if and only if no chunk was dispatched before registration |
| `LateRegistration.PrefixBeforeCloseExactlyWhen` | snova/mux/mux_connection.cc:349-382 | With the close under way: in every continuation if and only if the chunks from registration to the close are a prefix of all |
| `LateRegistration.DispatchUpTo` | snova/mux/mux_connection.cc:308-382 | The read loop can always be brought past any pending event, whichever stream it is parked at |
| `LateRegistration.ReadAll` | snova/mux/mux_stream.cc:130-140 | A registered stream can always be read until everything dispatched to it since registration has been returned |
| `StreamOpening.OpenerMissesNothing` | snova/server/relay.cc:118-125 | In every run of the two ends, a stream at the end that opens it misses nothing, since it is registered before its open event is written: its Reads return a prefix of all the peer's chunks |
| `StreamDelivery.MissedIsFixed` | snova/mux/mux_connection.cc:359-382 | The number of missed chunks never changes afterwards |
| `StreamDelivery.ForcedExactlyWhen` | snova/mux/mux_connection.cc:359-372 | After every run: a chunk whose stream is not registered forces a close if and only if the last one forced was of another stream |
| `LateRegistration.ClosedHandsOutOne` | snova/mux/mux_stream.cc:130-140 | A closed stream hands out at most the chunk a Read was already given, in every continuation |
| `LateRegistration.LocalCloseIsFinal` | snova/mux/mux_stream.cc:162-170 | A stream closed at this end is out of the table and closed for good |
| `LateRegistration.UnregisterIsFinal` | snova/server/relay.cc:121-123 | A stream taken out of the table never comes back and takes in nothing more |
| `StreamDelivery.LateRegistrationExample` | snova/mux/mux_connection.cc:359-382 | For every first and second chunk, a run in which Read returns the second first |
| `StreamDelivery.IdsAreFresh` | snova/mux/mux_stream.cc:58-63 | Client and server ids never meet, and an id recurs exactly after 2^31 others |
| `StreamDelivery.Endpoint.New` | snova/mux/mux_stream.cc:64-70 | The object performs the registration step and keeps the invariant |
| `StreamDelivery.Endpoint.ProcessReadEvent` | snova/mux/mux_connection.cc:349-382 | The object performs the dispatch step and keeps the invariant |
| `StreamDelivery.Endpoint.OfferNow` | snova/mux/mux_stream.cc:117-129 | An open stream has taken in exactly one more chunk, behind all others; the read loop parks exactly if a chunk was buffered; a closed stream takes nothing |
| `StreamDelivery.Endpoint.CloseNow` | snova/mux/mux_stream.cc:162-170 | The stream is closed and out of the table, no Read and no read loop is left parked at it, what was read and what a Read was handed stay, and the rest is a prefix of what it took in |
| `StreamDelivery.Endpoint.Read` | snova/mux/mux_stream.cc:130-135 | The object performs the read step and keeps the invariant |
| `StreamDelivery.Endpoint.ResumeRead` | snova/mux/mux_stream.cc:135-140 | Exactly the returned chunk is added to what was read |
| `StreamClose.MuxStream.WriteEvent` | snova/mux/mux_stream.h:69-85 | Terminates; offers its event until it is accepted, first to the writer at hand, and gives up after exactly three turns; then the stream is closed and, unless others closed it, a close event is offered in the same way: at most six attempts |
| `StreamClose.MuxStream.Close` | snova/mux/mux_stream.cc:162-182 | Closed afterwards; an open stream closed locally offers its close event until accepted or three times, and reports whether it was; one that was closed, or is closed by the remote end, offers nothing |
| `StreamClose.CloseIsARun` | snova/mux/mux_stream.cc:162-182 | Those turns are a run of the machine below: it ends with the stream closed, the coroutine done, and a close delivered exactly if a turn was accepted |
| `StreamClose.WriteIsARun` | snova/mux/mux_stream.h:69-85 | So are the turns of WriteEvent: an accepted event leaves the stream as it was, three failed turns close it and make the turns of the close event |
| `StreamClose.EveryRunKeepsInv` | snova/mux/mux_stream.cc:142-182 | Under every interleaving of writers and closers at most one coroutine ever writes the close event |
| `StreamClose.AtMostOneClose` | snova/mux/mux_stream.cc:162-182 | Over its life a stream delivers at most one close event, none after a remote close, and no coroutine makes more than six attempts |
| `CloseExchange.ClosesAreConserved` | snova/mux/mux_connection.cc:349-372 | Over every run of two ends and the closes between them: what one end has sent is on its way to the other or has arrived there |
| `CloseExchange.NoPingPong` | snova/mux/mux_connection.cc:349-372 | The two stream objects send at most two closes; an end closed by the other has sent none, and unless the other's read loop forced it, the other's object has sent exactly one, which has arrived, and was not itself closed remotely |
| `CloseExchange.ArrivalSendsNothing` | snova/mux/mux_connection.cc:349-358 | The arrival of a close puts nothing on the connection at either end, and closes a stream in the table |
| `CloseExchange.SendsExactlyWhen` | snova/mux/mux_connection.cc:349-372 | A step puts a close on the connection if and only if it is a chunk without a stream, or an accepted close event of the object |
| `CloseExchange.UnregisteredIgnoresCloses` | snova/server/relay.cc:121-123 | A close that arrives for a stream out of the table changes nothing of it |
| `CloseExchange.RemotelyClosedStaysSilent` | snova/mux/mux_stream.cc:162-182 | An end that was closed remotely never sends a close in any continuation |
| `CloseExchange.OneCloseExample` | snova/mux/mux_stream.cc:162-182 | A run in which one close crosses and nothing comes back |
| `StreamClose.ClosedForGood` | snova/mux/mux_stream.cc:162-182 | Closed stays closed, and who closed it stays settled |
| `TimeWheel.DueExactlyWhen` | snova/util/time_wheel.cc:114 | The unsigned test is true if and only if the timeout has elapsed or the active time lies ahead by less than 2^64 minus the timeout |
| `TimeWheel.FiresEarly` | snova/util/time_wheel.cc:105-115 | The run that shows it, for every timeout: looked at when its slot comes up with an active time one millisecond ahead, the task fires |
| `TimeWheel.EveryRunKeepsInv` | snova/util/time_wheel.cc:69-121 | In every run, a registered, uncancelled, unfired task stands in the wheel exactly once, and nothing fires twice |
| `TimeWheel.PendingTaskHasOneSlot` | snova/util/time_wheel.cc:69-121 | Between ticks a pending task stands in exactly one slot |
| `TimeWheel.FiringIsSound` | snova/util/time_wheel.cc:105-121 | A task fires at most once, never after a cancel, and not before its timeout has elapsed when its active time is not ahead |
| `TimeWheel.EverySlotIsVisited` | snova/util/time_wheel.cc:89-103 | From any time on, ticks 99 ms apart visit every slot within 181 ticks |
| `TimeWheel.BoundIsTight` | snova/util/time_wheel.cc:89-103 | 180 ticks are not enough, from any time two milliseconds into a turn |
| `TimeWheel.UnvisitedStays` | snova/util/time_wheel.cc:101-121 | A task in one slot stays there, unfired, through ticks that visit other slots |
| `TimeWheel.TickDecides` | snova/util/time_wheel.cc:99-121 | After every run, the tick that visits the slot of a pending task: it fires and is out of the wheel if and only if more than its timeout has elapsed, else it stands in exactly the slot of active time + timeout + 100 ms |
| `TimeWheel.Fires181TicksLate` | snova/util/time_wheel.cc:69-121 | Timers that late exist: registered for a deadline in slot 118, unfired after 180 ticks past it and fired after 181 |
| `TimeWheel.CancelledNeverFires` | snova/util/time_wheel.cc:79-83 | A cancelled task that has not fired does not fire in any continuation |
| `TimeWheel.FiresWithin181Ticks` | snova/util/time_wheel.cc:91-122 | From every reachable state, a pending task whose active time stops advancing has fired after 181 ticks past its deadline, whatever else is registered or cancelled |
| `TimeWheel.Wheel.DoRegister` | snova/util/time_wheel.cc:69-87 | Keeps the invariant; the new task stands in exactly the slot of its deadline, half a second ahead for a timeout of zero |
| `TimeWheel.Wheel.CancelTask` | snova/util/time_wheel.cc:79-83 | Keeps the invariant; a task that has not fired never will, whatever happens from then on |
| `TimeWheel.Wheel.RunOnce` | snova/util/time_wheel.cc:99-121 | One turn of the loop is the tick function: take the slot out, drop cancelled tasks, fire due ones, put the others back |
| `WebSockets.MaskTwice` | snova/io/ws_socket.cc:165-171 | Masking twice with a key gives the payload back |
| `WebSockets.MaskIsXor` | snova/io/ws_socket.cc:165-171 | Every bit of a masked byte is the sum modulo 2 of the bits of the payload byte and of the key byte at its position modulo 4 |
| `WebSockets.HeaderLayout` | snova/io/ws_socket.cc:144-167 | The bytes of every header: a final binary frame, mask bit, the length in 7, 16 or 64 bits high byte first, the key |
| `WebSockets.FrameLayout` | snova/io/ws_socket.cc:144-178 | The payload stands behind the header, as it is or masked byte by byte |
| `WebSockets.HeaderLength` | snova/io/ws_socket.cc:144-167 | All three length forms, with and without a key, decode to the payload length, and the header ends where the payload begins |
| `WebSockets.FrameRoundTrip` | snova/io/ws_socket.cc:144-258 | Every frame reads back as its payload and ends at the next frame's first byte, whatever follows |
| `WebSockets.MessagesRoundTrip` | snova/io/ws_socket.cc:144-258 | Any sequence of messages, lengths and keys is returned by as many reads, ending at the boundary behind the last |
| `WebSockets.BufferedIO.AsyncRead` | snova/io/buffered_io.cc:46-66 | Hands out a nonempty front of the stream: what it left over earlier, else a new read |
| `WebSockets.ReadExact` | snova/io/io_util.cc:64-78 | For every nonempty chunking, the buffer receives exactly the next bytes of the stream and nothing else changes |
| `WebSockets.MaskInPlace` | snova/io/ws_socket.cc:247-250 | The loop masks the front of the buffer, each byte bit by bit with the key byte at its position modulo 4, and nothing behind it |
| `WebSockets.WebSocket.AsyncWrite` | snova/io/ws_socket.cc:144-180 | The bytes sent are the frame, after a transport error a part of it; the result is the length of the data either way; a client leaves the caller's buffer masked |
| `WebSockets.ReadMessages` | snova/io/ws_socket.cc:193-258 | As many AsyncReads as there were messages return the payloads in order, for every chunking of the transport, and leave the stream at the boundary behind the last |
| `WebSockets.WebSocket.ReadLength` | snova/io/ws_socket.cc:193-231 | The mask bit, the length in any form, and the stream behind them |
| `WebSockets.WebSocket.AsyncRead` | snova/io/ws_socket.cc:193-258 | For every chunking of the transport: the message at the front of the stream, or "no buffer space" when it does not fit |
| `Sni.ParseServerNameExtension` | snova/util/sni.cc:188-221 | The loop terminates inside the bytes and returns what the list denotes |
| `Sni.ParseExtensions` | snova/util/sni.cc:164-186 | The loop terminates inside the bytes and returns what the block denotes |
| `Sni.ParseSni` | snova/util/sni.cc:70-112 | Every index is in range on every input; the result is that of the record |
| `Sni.ParseHello` | snova/util/sni.cc:114-162 | Every index is in range; the cursor skips exactly the fields before the extensions |
| `Sni.FindsHostName` | snova/util/sni.cc:70-221 | For every ClientHello of the grammar the first host name is returned, whatever surrounds it; an empty one is refused if and only if nothing follows it in its extension |
| `Sni.AcceptsOnlyRecords` | snova/util/sni.cc:70-221 | The converse: a name is returned only for a record of the grammar, and it is that record's host name, a slice of the input |
| `Sni.NeedsMoreExactlyWhen` | snova/util/sni.cc:79-112 | The failure codes are -1, -2 and -5; -1 if and only if there are fewer than five bytes or fewer than a TLS handshake header announces |
| `Sni.PartNeedsMore` | snova/util/sni.cc:108-112 | Every part of a record of the grammar that stops before its end gives -1 |
| `Sni.ForeignRecords` | snova/util/sni.cc:82-106 | SSL 2 hellos and old versions give -2, other content -5 |
| `Sni.NoExtensions` | snova/util/sni.cc:140-160 | A hello that ends behind its compression methods gives -2 in SSL 3 and -5 in TLS |
| `Sni.NoServerName` | snova/util/sni.cc:164-186 | A hello with any other extensions and no server name gives -2 |
| `Sni.NoHostName` | snova/util/sni.cc:188-221 | A server name extension with entries of other types only gives -2, unless its last entry is empty: then -5 |
| `Sessions.ClearedRemovesOne` | snova/mux/mux_conn_manager.cc:223-240 | Where a connection stands at most once, the loop of Remove, in spite of its early exit, clears it and nothing else |
| `Sessions.MuxConnManager.GetSession` | snova/mux/mux_conn_manager.cc:178-186 | The session, made empty if there was none |
| `Sessions.MuxConnManager.Add` | snova/mux/mux_conn_manager.cc:188-211 | The first null slot, or a new one at the end, takes the connection; its index is reported |
| `Sessions.MuxConnManager.Remove` | snova/mux/mux_conn_manager.cc:212-240 | The connection's slot is cleared, the session erased when all slots are null; unknown users and sessions are ignored |
| `Sessions.ClearSlot` | snova/mux/mux_conn_manager.cc:223-236 | The loop with its flags computes the cleared slots and whether all are null, the early exit included |
| `Sessions.TableHoldsExactlyLive` | snova/mux/mux_conn_manager.cc:188-240 | Over any sequence of additions and removals the table holds exactly the connections added and not removed, each once, at the index reported |
| `Sessions.AddKeepsOccupants` | snova/mux/mux_conn_manager.cc:188-211 | Add never overwrites an occupied slot of any session |
| `Sessions.RemoveErasesExactlyEmpty` | snova/mux/mux_conn_manager.cc:212-240 | The session is erased if and only if no other connection is left in it, and removing twice equals removing once |
| `Sessions.LatestWindowSendBytes` | snova/mux/mux_connection.cc:112-118 | The loop computes the sum |
| `Sessions.CompareIsPreorder` | snova/mux/mux_connection.cc:448-471 | Antisymmetric, and transitive in the weak and the strict form |
| `Sessions.CompareIsBetter` | snova/mux/mux_connection.cc:448-471 | Positive exactly for fewer waiters, at equal waiters for unlocked over locked, then for fewer bytes sent; negative exactly for the reverse |
| `Sessions.SelectWriter` | snova/mux/mux_conn_manager.cc:63-80 | None exactly when all slots are null, else the lowest index of those that no other connection is better than |
| `ClientPool.EveryRunKeepsBase` | snova/mux/mux_client.cc:123-133 | In every run a running, unretired connection occupies its slot, and an occupant knows its slot |
| `ClientPool.ExitNeverClearsAnother` | snova/mux/mux_client.cc:123-133 | After every run, the end of a read loop clears at most that connection's own slot: a retired connection never clears its successor |
| `ClientPool.CleanExactlyWhen` | snova/mux/mux_client.cc:123-211 | From a pool whose occupants are all usable, a step leads to such a pool if and only if it is not a retire request read for an occupant, nor a read loop that ends before its slot is assigned |
| `ClientPool.OccupantsAreExactlyInUse` | snova/mux/mux_client.cc:123-211 | In every run without those two events, the occupant of a slot is exactly its running, unretired connection |
| `ClientPool.SpoiledUntilExpiry` | snova/mux/mux_client.cc:175-215 | An unusable occupant keeps its slot until the expiry of that slot, whatever else happens |
| `ClientPool.ExpiryFreesSlot` | snova/mux/mux_client.cc:186-194 | After every run, the expiry of a slot frees it, retires its occupant, usable or not, and changes nothing else |
| `ClientPool.ExpiredIsReplaced` | snova/mux/mux_client.cc:123-196 | After every run, an expired connection is replaced: the new one holds the slot and is in use, the old one is in no slot, and the end of its read loop leaves the slots alone |
| `ClientPool.PeerRetireExample` | snova/mux/mux_connection.cc:317-324 | A retire request read by the client leaves a dead connection in the slot |
| `ClientPool.MuxClient.CheckSlot` | snova/mux/mux_client.cc:182-196 | A null slot starts a connect, an expired occupant is retired and its slot cleared, else nothing |
| `ClientPool.MuxClient.FinishConnect` | snova/mux/mux_client.cc:123-134 | The new connection fills its slot; the pool stays clean exactly if its read loop has not ended before |
| `ClientPool.MuxClient.AfterReadLoop` | snova/mux/mux_client.cc:126-130 | The connection is out of a clean pool, and the pool stays clean |
| `IoBufPool.Pool.Get` | snova/io/io.cc:63-81 | A buffer that was not out, of at least max(n, 8448) bytes; the others are untouched and the totals exact |
| `IoBufPool.Pool.Release` | snova/io/io.cc:53-62 | The buffer is kept exactly if the pool is below its limit; never free and lent at once; totals exact |
| `IoBufPool.Pool.Grow` | snova/io/io_util.cc:45 | A borrower that grows its buffer does not disturb the pool's totals |
| `NetAddresses.SplitJoined` | snova/util/address.cc:38 | Splitting a joined text at a separator that does not overlap itself gives the parts of both sides |
| `NetAddresses.StoiDecimal` | snova/util/address.cc:61 | Reading a printed port gives the port |
| `NetAddresses.StoiForms` | snova/util/address.cc:61 | White space in front, a sign and what follows the digits, and numbers beyond 32 bits |
| `NetAddresses.ParseWithoutPort` | snova/util/address.cc:36-97 | `schema://host` gets port 443, 80, 53, 853 or none by its schema, and an empty host becomes 0.0.0.0 |
| `NetAddresses.ParseAnyPort` | snova/util/address.cc:52-66 | `host:number` for any number: cut down to sixteen bits, an error beyond 32 bits |
| `NetAddresses.Parse` | snova/util/address.cc:36-97 | A parsed host is never empty and holds no slash |
| `NetAddresses.ParsePrintedExactlyWhen` | snova/util/address.cc:36-109 | Parse(String(a)) is a if and only if the host is nonempty without colon and slash, the port is nonzero or the schema has no default port, and "://" does not occur elsewhere (without a schema: not exactly once in the path) |

## Left out

- The "none" cipher branch of Encrypt and Decrypt.
- The AEAD cipher, SHA-1 and nanopb themselves, replaced by the laws above.
- Handshake.DeliveredIsPrefixOfWritten: connections that stay open and events that the peer accepts (bodies up to 8320 bytes); closing the mutex is covered in `ChannelMutex` alone. Behind a torn frame nothing is stated, since the laws of the cipher do not exclude that some bytes open.
- Handshake.DrainDelivers: says that reads exist which deliver everything, not that a scheduler takes them.
- WriteOrder.ReadsFollowWrites: one coroutine writes to the stream and it stays on one connection; order across a failover to another connection is not modelled, and the reader has not gone past a failed write. The connection's run and the endpoint's run are tied by what was read off the one and dispatched in the other.
- StreamDelivery.ReadsArePrefixOfWrites: a stream id is used once, which `IdsAreFresh` gives for 2^31 streams.
- StreamClose.WriteIsARun: a stream that no other coroutine uses meanwhile; with others, `AtMostOneClose` holds and the turns are bounded as `MuxStream.WriteEvent` states.
- CloseExchange.NoPingPong: a write of a close event that fails is taken not to arrive, and a stream has two ends, one object each; how often chunks for unknown streams force closes is not bounded.
- ReadPath.MuxConnection.ReadEvent: a read returns a nonempty piece, an error, or zero bytes at the end of the stream.
- StreamOpening.OpenerMissesNothing: what one end writes is at once in the queue of the other's read loop; that it gets there in order is `Handshake.DeliveredIsPrefixOfWritten`.
- LateRegistration.PrefixForeverExactlyWhen: streams that are in the table; one that was taken out reads at most what it had taken in.
- WebSockets.ReadExact: a transport that keeps returning zero bytes without an error would make the program loop; the model's transport reports an error at its end.
- WebSockets.WebSocket.AsyncWrite: the key is a parameter; the overload for several buffers, the opcode of incoming frames and the HTTP upgrade are not modelled.
- TimeWheel.FiresWithin181Ticks: ticks exactly 99 ms apart and callbacks that do not suspend; callbacks that suspend are covered by `EveryRunKeepsInv` and `FiringIsSound`.
- TimeWheel.Wheel.RunOnce: the loop with callbacks that do not suspend.
- Sessions.TableHoldsExactlyLive: adding a connection to a session that already holds it is not considered; a session object that outlives its erasure in some closure is not distinguished from the table's entry.
- ClientPool.EveryRunKeepsBase: the sweep of CheckConnections may look at slots in any order; dialing, TLS and authentication are one step that succeeds or fails.
- IoBufPool.Pool.Grow: the statistic of lent bytes is not modelled, since borrowers change it unnoticed; the contents of buffers are not modelled.
- The Write coroutine, the handshake and the waiting channels are steps on values; the objects around them (mutex, cipher context, read buffer, stream table, wheel) are classes.
- Tunnels, DNS, HTTP and SOCKS entry points, TLS sockets, relays, statistics, the 30-second traffic window, flags and command line.

# Verified model of the game server's core

A Dafny model of the parts of the server whose correctness does not show in any single function, with proofs of what they promise:

- the SIMD-oriented Mersenne Twister (`Sfmt.dfy`): in-place refills refine a recurrence, lose no state, and the range reduction has an exact bias;
- the room-update worker pool (`RoomUpdater.dfy`, `Updater.dfy`): a step relation over any number of threads with its inductive invariant, termination of its calls, and the objects whose methods are those steps;
- sockets (`Bytes.dfy`, `Framing.dfy`, `WorldSocket.dfy`, `WriteQueue.dfy`): packets survive any chunking, and one write at a time is in flight, in order;
- the UTF-8/16/32 library (`Utf8Core.dfy`, `Utf16Core.dfy`, `Utf8.dfy`, `Utf8Repair.dfy`, `Utf8Cursor.dfy`, with `Result.dfy`) against sections 3 and 4 of RFC 3629 and sections 2.1 and 2.2 of RFC 2781;
- matchmaking (`Ledger.dfy`, `Seating.dfy`, `Passes.dfy`, `TablePasses.dfy`, `ThirdPass.dfy`, `PairOutcomes.dfy`, `TableOutcomes.dfy`, `WholeUpdate.dfy`, `Room.dfy`): who is seated, pooled, deleted or lost over the three passes of a room's update;
- cards (`Cards.dfy`), the event scheduler (`EventData.dfy`, `EventMap.dfy`), the byte buffer (`Serial.dfy`, `ByteBuffer.dfy`) and the duration printer and parser (`Duration.dfy`).

Objects that the code updates in place are classes whose methods are proved against a specification function; the lemmas are about that function. Protocols between threads are step relations, and a run is any sequence of enabled steps. Random draws, expired waiting times, the sleeper that a notification wakes and the sizes of reads are parameters or free choices, so statements hold for all of them.

## Where the code falls short of its own words

Each of these is proved, with the exact condition under which it happens or a failing input.

- `URandom` over all 2^32 values always returns `min`: the interval wraps to 0 (`Sfmt.FullRangeCollapses`). The generator's refill is injective from three words on, not for two (`Sfmt.TwoWordStatesCanMerge`).
- `RoomUpdater::deactivate` sets the token before it waits; a worker that then pops a request exits without finishing it, and the wait never ends (`RoomUpdater.DeactivateReturnsIff`, `RoomUpdater.QueuedWorkUnseen`). Its only caller avoids this by deactivating between updates (`RoomUpdater.ManagedDeactivateReturns`).
- `DelayedCloseSocket` is described as closing once the write buffer is empty; if it is empty already and nothing is sent any more, nothing closes the socket (`WriteQueue.DelayedCloseIff`).
- A header with a size field of 4 to 7 passes the validity test and ends in a length error (`Framing.LengthErrorIff`), one of 8 to 15 in a position error; a ping before the login dereferences a null session (`Framing.FrameEndsIff`).
- `UpdateOne` drops live players that it has taken off the list together with a logged-out one (`Passes.FirstPassLoses`).
- An event scheduled with id 0 ends a drain (`EventMaps.EventMap.Drain`). An id above 16 bits is cut (`EventData.IdSurvivesIff`) and spills into groups (`EventData.OwnGroupIff`, `EventData.SpillsIntoGroup`) and phases (`EventData.OwnPhaseIff`).
- Every player is dealt the bottom cards, because the hand's slots and the slots for bottom cards are adjacent and read as one (`Cards.GameConserves`), so a bottom card can be played twice (`Cards.NoCardPlayedTwiceIff`, `Cards.BottomCardPlayedTwice`).
- The long form of a duration does not parse (`Duration.LongIsRefused`).

## Model

| member | source | states |
|---|---|---|
| Sfmt.RecursionOn128Bits | dep/SFMT/SFMT.h:138-151 | The four lane formulas are the 128-bit operations: a, a shifted left by three bytes, c shifted right by three, the masked right-shifted lanes of b and the left-shifted lanes of d, all xored. |
| Sfmt.LaneOfWhole | dep/SFMT/SFMT.h:239-249 | Lane i is the i-th 32 bits of the 128-bit word, the least significant first. |
| Sfmt.ProgressStep | dep/SFMT/SFMT.h:340-351 | One turn of either refill loop, whichever operand index it uses, keeps: words before the index are the next of the recurrence, words after it still the old ones, and r1, r2 the two last. |
| Sfmt.ProgressEnds | dep/SFMT/SFMT.h:338-352 | A refill starts and ends with the state being a window of N consecutive words of the recurrence, N further on at the end. |
| Sfmt.SFMTRand.Generate | dep/SFMT/SFMT.h:332-353 | The in-place refill replaces the window of the recurrence at position base by the one at base + N and resets the index. |
| Sfmt.SFMTRand.BRandom | dep/SFMT/SFMT.h:239-249 | The k-th draw since seeding is lane k mod 4 of word N + k/4 of the recurrence, across all refills. |
| Sfmt.UndoRecursion | dep/SFMT/SFMT.h:138-151 | The recursion is invertible in its first operand: from the result and the other three operands, the 128-bit word it replaced is computed back. |
| Sfmt.PreviousWindow | dep/SFMT/SFMT.h:332-353 | A window of the recurrence determines the window one position earlier (N >= 3). |
| Sfmt.RewindRecovers | dep/SFMT/SFMT.h:332-353 | After any number of steps all earlier words are recovered from the state alone. |
| Sfmt.StatesNeverMerge | dep/SFMT/SFMT.h:332-353 | Two states that agree after any number of refills were equal before them: a refill loses no state, for every N >= 3. |
| Sfmt.ConfiguredStatesNeverMerge | dep/SFMT/SFMT.h:76-83 | The configured state size, shift position and mask are among the settings for which no state is lost. |
| Sfmt.Configured | dep/SFMT/SFMT.h:162-166 | The configured settings meet what a generator asks of them, and building one with them gives a valid, seeded, certified generator. |
| Sfmt.TwoWordStatesCanMerge | dep/SFMT/SFMT.h:338-351 | For N = 2 this fails: two distinct states with the same refill are given for every mask. |
| Sfmt.SFMTRand.constructor | dep/SFMT/SFMT.h:162-166 | A new generator is valid, with a state seeded as RandomInit says and certified. |
| Sfmt.SFMTRand.RandomInit | dep/SFMT/SFMT.h:168-186 | The run starts from the seeded state, changed in at most the one bit of word 0 that certification flips, certified, with no draw made yet. |
| Sfmt.SeededLanes | dep/SFMT/SFMT.h:173-182 | In a seeded state lane 0 is the seed, and every further lane exceeds 1812433253 times the lane before it, xored with its two top bits, by its own index modulo 2^32. |
| Sfmt.SeedsDifferEverywhere | dep/SFMT/SFMT.h:173-182 | Two different seeds fill every lane of the state differently. |
| Sfmt.SeedOneMore | dep/SFMT/SFMT.h:176-182 | Writing lane i extends the seeded prefix by one word of the seeding recurrence and disturbs no other lane. |
| Sfmt.SFMTRand.Init2 | dep/SFMT/SFMT.h:292-330 | Period certification: the origin of the run has odd checked parity; it is the given state if that already had, else the given state with the bit of word 0 flipped that stands at the lowest set bit of the parity vector. |
| Sfmt.SFMTRand.FlipOneBit | dep/SFMT/SFMT.h:313-326 | The nested search finds a bit for every non-zero parity vector: the lowest set one. It flips that bit of word 0, leaves everything else, and the state is certified afterwards. |
| Sfmt.FoldLinear | dep/SFMT/SFMT.h:310-310 | The shift-and-xor fold is linear over xor. |
| Sfmt.FoldIsParity | dep/SFMT/SFMT.h:310-311 | The lowest bit of the fold is the parity of the number of set bits, for every 32-bit word. |
| Sfmt.CertifiedIs | dep/SFMT/SFMT.h:305-311 | The test the code makes holds exactly when an odd number of the checked bits of state[0] is set. |
| Sfmt.FlipCertifies | dep/SFMT/SFMT.h:313-321 | Flipping a bit the parity vector checks turns a failed certification into a passed one. |
| Sfmt.NextBit | dep/SFMT/SFMT.h:316-317 | The search for a set bit of a non-zero lane cannot run past bit 31. |
| Sfmt.SFMTRand.URandom | dep/SFMT/SFMT.h:207-224 | Returns the range reduction of the next draw of the recurrence, in [min, max] whenever min <= max; draws nothing when max <= min. |
| Sfmt.ReduceInRange | dep/SFMT/SFMT.h:211-223 | Multiply-and-shift stays in [min, max] for every 32-bit draw and range, and is always 0 for the full range, whose 32-bit size wraps to 0. |
| Sfmt.RangeBias | dep/SFMT/SFMT.h:210-223 | For n = max-min+1 < 2^32, each value comes from floor(2^32/n) or ceil(2^32/n) of the 2^32 draws. |
| Sfmt.DrawnBetween | dep/SFMT/SFMT.h:210-223 | The draws for the v-th value of a range are those from the rounded-up v/n of 2^32 to the next such number: larger draws give larger values. |
| Sfmt.FavouredValues | dep/SFMT/SFMT.h:210-223 | Exactly 2^32 mod n of these values get the larger count. |
| Sfmt.EveryValueDrawn | dep/SFMT/SFMT.h:207-224 | For n < 2^32 every value of the range is drawn by some 32-bit number. |
| Sfmt.FullRangeCollapses | dep/SFMT/SFMT.h:219-223 | Every value of the range can be drawn if and only if the range is not the full 32-bit one. |
| RoomUpdater.InvApply | src/server/game/Room/RoomUpdater.cpp:70-118 | Every step of every thread keeps: pending_requests is queued plus popped and unfinished plus dropped, each request is in exactly one place, flags are set in order, and no wakeup is lost. |
| RoomUpdater.InvAlways | src/server/game/Room/RoomUpdater.cpp:48-118 | That invariant holds after every interleaving of the main thread and any number of workers, with spurious wakeups. |
| RoomUpdater.ReachableInv | src/server/game/Room/RoomUpdater.cpp:48-118 | It holds in every state reachable from activation. |
| RoomUpdater.ScheduledOnce | src/server/game/Room/RoomUpdater.cpp:80-87 | A request is scheduled under one number and is in at most one place: being pushed, queued, held by a worker, run, or dropped. |
| RoomUpdater.FirstInFirstOut | src/server/game/Room/RoomUpdater.cpp:80-118 | In every reachable state the queue is the end of the list of requests pushed: they leave it in the order they were scheduled. |
| RoomUpdater.ActivatedWorkers | src/server/game/Room/RoomUpdater.cpp:48-54 | Activation with n threads starts n workers, and in every state reached from it there are exactly n. |
| RoomUpdater.WaitReturns | src/server/game/Room/RoomUpdater.cpp:70-78 | When wait() returns, every request scheduled so far has run exactly once, nothing else has run, the queue is empty and no worker owes a completion. |
| RoomUpdater.QueuedWorkIsSeen | src/server/shared/Threading/ProducerConsumerQueue.h:40-46 | With requests queued, every worker is asleep or serving the queue if and only if no request has been dropped, and then some worker serves it; while any worker sleeps, as many as there are queued requests are on their way to the queue. |
| RoomUpdater.QueuedWorkUnseen | src/server/game/Room/RoomUpdater.cpp:103-118 | A reachable state with a request queued whose only worker has left the pool. |
| RoomUpdater.NoNullCall | src/server/game/Room/RoomUpdater.cpp:103-118 | No worker ever calls a null request: one that pops nothing finds both the token and the shutdown flag set; the main thread never sleeps with nothing pending. |
| RoomUpdater.CancelDeletesNothing | src/server/shared/Threading/ProducerConsumerQueue.h:83-101 | When deactivate() reaches Cancel the queue is empty, so no queued request is deleted and none was dropped. |
| RoomUpdater.DoneMeansExited | src/server/game/Room/RoomUpdater.cpp:56-68 | When deactivate() returns every worker has exited and every scheduled request has run. |
| RoomUpdater.MeasureDrops | src/server/game/Room/RoomUpdater.cpp:56-118 | Every step of every thread lowers a bound on the steps the call in progress still takes. |
| RoomUpdater.NotStuck | src/server/game/Room/RoomUpdater.cpp:56-118 | During a call some thread can always step: no deadlock, unless a request has been dropped. |
| RoomUpdater.CallsReturn | src/server/game/Room/RoomUpdater.cpp:56-78 | However the threads interleave, wait() returns; so does deactivate() when no request is left that a worker could drop. |
| RoomUpdater.DroppedRequestHangs | src/server/game/Room/RoomUpdater.cpp:103-118 | With a request queued, just popped or dropped once the token is set, no bound on deactivate() holds: a worker may take the request and exit, and wait() then sleeps forever. |
| RoomUpdater.DeactivateReturnsIff | src/server/game/Room/RoomUpdater.cpp:56-68 | deactivate() is certain to return if and only if, when it is called, no request is queued or just popped. |
| RoomUpdater.ManagedAlways | src/server/game/Room/RoomManager.cpp:42-60 | With RoomManager::Update as the only scheduler the invariant also says which rooms of the round are scheduled and that all earlier rounds have run. |
| RoomUpdater.OneRequestPerRoom | src/server/game/Room/RoomManager.cpp:42-60 | In every reachable state each room has at most one request queued or running, so Room::Update never overlaps itself. |
| RoomUpdater.QuietBetweenUpdates | src/server/game/Room/RoomManager.cpp:94-100 | Between updates, when the main thread may call AddPlayer, no room is queued or being updated. |
| RoomUpdater.ManagedDeactivateReturns | src/server/game/Room/RoomManager.cpp:62-74 | UnloadAll, the only caller, deactivates between updates, and then deactivate() always returns within some bound. |
| Updaters.ProducerConsumerQueue.Push | src/server/shared/Threading/ProducerConsumerQueue.h:40-46 | Appends at the back of the queue. |
| Updaters.ProducerConsumerQueue.WaitAndPop | src/server/shared/Threading/ProducerConsumerQueue.h:69-81 | Sleeps exactly while the queue is empty and not shut down, comes back without a value exactly when shut down, and otherwise takes the front. |
| Updaters.ProducerConsumerQueue.Cancel | src/server/shared/Threading/ProducerConsumerQueue.h:83-101 | Deletes everything queued, in order, and shuts down. |
| Updaters.Updater.constructor | src/server/game/Room/RoomUpdater.cpp:48-54 | Activation gives the initial state of the relation. |
| Updaters.Updater.ScheduleUpdate | src/server/game/Room/RoomUpdater.cpp:80-87 | The section under the lock is the three steps count, push (waking a chosen sleeper), unlock. |
| Updaters.Updater.TestWait | src/server/game/Room/RoomUpdater.cpp:70-78 | One turn of wait() is the relation's test step; it returns exactly when nothing is pending. |
| Updaters.Updater.SetCancelationToken | src/server/game/Room/RoomUpdater.cpp:56-60 | The start of deactivate() is the relation's step. |
| Updaters.Updater.CancelQueue | src/server/game/Room/RoomUpdater.cpp:62-62 | Cancelling is the relation's draining step. |
| Updaters.Updater.TakeRequest | src/server/game/Room/RoomUpdater.cpp:107-109 | A worker's turn at the queue is its step of the relation. |
| Updaters.Updater.CheckToken | src/server/game/Room/RoomUpdater.cpp:111-114 | The test of the token and the call that follows are the worker's step, including the null call. |
| Updaters.Updater.UpdateFinished | src/server/game/Room/RoomUpdater.cpp:94-101 | Counting a finished request down and waking the main thread is the worker's step. |
| Bytes.FromToLE | src/server/game/Server/Protocol/ServerPktHeader.h:35-39 | A number that fits its width reads back from its little-endian bytes. |
| Bytes.ToFromLE | src/server/game/Server/WorldSocket.h:46-52 | Bytes read as a little-endian number are its bytes again. |
| Bytes.LowestFirst | src/server/game/Server/Protocol/ServerPktHeader.h:35-39 | Byte k is the number modulo 256 after k divisions by 256. |
| Bytes.Halves | src/server/game/Server/Protocol/ServerPktHeader.h:35-39 | Two 16-bit words, low one first, lay out the 32-bit word they make up. |
| WorldSockets.ServerPktHeader.constructor | src/server/game/Server/Protocol/ServerPktHeader.h:31-40 | The four words, filled through the running index, are low and high half of size and of opcode. |
| WorldSockets.WriteBuffers | src/server/game/Server/WorldSocket.h:62-77 | What is written for a packet is its frame: 32-bit size (body plus 8), 32-bit opcode, both little-endian, and the body if there is one. |
| Framing.HeaderReadsBack | src/server/game/Server/Protocol/ServerPktHeader.h:31-40 | The reader's view of a frame's header is the sender's size and opcode. |
| Framing.FrameBytes | src/server/game/Server/Protocol/ServerPktHeader.h:31-40 | Byte by byte: the first four bytes of a frame are the body length plus 8 and the next four the opcode, lowest byte first, and the body follows. |
| Framing.HeaderBytes | src/server/game/Server/WorldSocket.h:46-52 | Byte by byte: the reader takes the size from the first four header bytes and the opcode from the other four, lowest byte first. |
| Framing.FeedSplit | src/server/shared/Networking/Socket.h:166-214 | Bytes may arrive in two parts or as one: the connection ends up the same. |
| Framing.ChunkingIsIrrelevant | src/server/shared/Networking/Socket.h:166-214 | However a stream is cut into chunks, the connection ends up the same. |
| Framing.FeedFrame | src/server/game/Server/WorldSocket.cpp:20-93 | A frame fed to an idle connection hands its packet to the data handler, or closes the socket if the header is refused. |
| Framing.Reassembly | src/server/game/Server/WorldSocket.cpp:20-93 | Frames of readable packets fed one after the other are handled as those packets, one after the other. |
| Framing.WithSession | src/server/game/Server/WorldSocket.cpp:60-90 | With a session every readable packet is received and the session's queue gets, in order, those that are neither login nor ping. |
| Framing.FramingRoundTrip | src/server/game/Server/WorldSocket.cpp:20-118 | For readable packets of which the first logs in, concatenated frames in any chunking are reassembled into exactly those packets in order, and the session's account and queue are the ones they imply. |
| Framing.AcceptedIff | src/server/game/Server/WorldSocket.cpp:20-126 | For any packets with 32-bit size and opcode, all frames are accepted if and only if every packet is readable (known opcode, body of 8 to 10231 bytes) and the first is a login of at least 24 bytes. |
| Framing.LengthErrorIff | src/server/shared/Networking/Socket.h:85-99 | A header ends an idle connection in a length error if and only if its size field is 4 to 7 and its opcode is known. |
| Framing.FrameEndsIff | src/server/game/Server/WorldSocket.cpp:20-93 | For every packet with 32-bit size and opcode: its frame ends an idle connection in a position error exactly if its body is shorter than 8 bytes or it is a first login shorter than 24, at a null session exactly if it is a ping before any login, by closing exactly if its header is refused or it is neither login nor ping before any login, and never in a length error. |
| Framing.ReceivedIsSent | src/server/shared/Networking/Socket.h:166-214 | For any bytes at all: framing the received packets gives back the bytes consumed, and while open, with the partial frame, the whole stream. Nothing is lost or invented. |
| WorldSockets.MessageBuffer.Grow | src/server/shared/Networking/MessageBuffer.h:51-54 | Enlarges the storage and keeps what has been received. |
| WorldSockets.MessageBuffer.Transfer | src/server/shared/Networking/MessageBuffer.h:56-56 | A chunk lands at the write index, which must be inside the storage, and disturbs nothing received before. |
| WorldSockets.MessageBuffer.WriteCompleted | src/server/shared/Networking/MessageBuffer.h:58-58 | What has been received grows by the bytes at the write index. |
| WorldSockets.MessageBuffer.Move | src/server/shared/Networking/MessageBuffer.h:62-66 | Hands over the storage and leaves an empty buffer. |
| WorldSockets.WorldSocket.constructor | src/server/game/Server/WorldSocket.cpp:10-18 | A new socket is the start of a connection, waiting for 8 header bytes. |
| WorldSockets.WorldSocket.AsyncReadHeader | src/server/shared/Networking/Socket.h:74-83 | Goes back to an idle connection, unless closed. |
| WorldSockets.WorldSocket.AsyncReadData | src/server/shared/Networking/Socket.h:85-99 | Calls the data handler for size 0, ends in a length error for a size field below 8, else waits for the body. |
| WorldSockets.WorldSocket.ReadHeaderHandler | src/server/game/Server/WorldSocket.cpp:20-41 | A complete header takes the connection where the specification says. |
| WorldSockets.WorldSocket.ReadDataHandler | src/server/game/Server/WorldSocket.cpp:43-93 | A complete packet takes the connection where the specification says: position errors, login, ping without session, unknown client, queueing. |
| WorldSockets.WorldSocket.Room | src/server/shared/Networking/Socket.h:166-176 | At every read the buffer has room: between 1 and 4096 bytes may be delivered. |
| WorldSockets.WorldSocket.ReadHeaderHandlerInternal | src/server/shared/Networking/Socket.h:178-195 | A chunk of any permitted size has the effect of its bytes one by one; the write index stays in range. |
| WorldSockets.WorldSocket.ReadDataHandlerInternal | src/server/shared/Networking/Socket.h:197-214 | The same for body chunks. |
| WorldSockets.WorldSocket.Run | src/server/shared/Networking/Socket.h:74-214 | Reading a stream in chunks of sizes nobody controls ends where feeding its bytes one by one does. |
| WriteQueue.InvApply | src/server/shared/Networking/Socket.h:216-232 | Every step of senders and completions keeps the queue invariant, and after a failure issues nothing. |
| WriteQueue.OneWriteInOrder | src/server/shared/Networking/Socket.h:216-232 | In every interleaving at most one write is outstanding; before any error one is exactly while the queue is non-empty; completed is a prefix of issued, issued of enqueued; the handler never touches an empty queue. |
| WriteQueue.NothingAfterFailure | src/server/shared/Networking/Socket.h:216-232 | After an error no write is ever issued again, whatever senders do. |
| WriteQueue.Drains | src/server/shared/Networking/Socket.h:216-232 | Without errors and new packets everything enqueued is written, and the last completion closes a socket marked for closing. |
| WriteQueue.DelayedCloseIff | src/server/shared/Networking/Socket.h:143-144 | In every run in which nothing else closes the socket: once the queue is empty, a delayed close has taken effect if and only if something was queued at the call or enqueued since. |
| WriteQueue.EndToEnd | src/server/game/Server/WorldSocket.cpp:95-118 | In a run that has written all it enqueued, the bytes issued are reassembled, in any chunking, into the packets enqueued, in order. |
| WriteQueue.Writer.IsOpen | src/server/game/Server/WorldSocket.cpp:97-98 | The unlocked test admits a sender exactly while the socket is open. |
| WriteQueue.Writer.AsyncWrite | src/server/game/Server/WorldSocket.cpp:105-118 | Enqueueing under the lock is the relation's step: it starts a write exactly if the queue was empty. |
| WriteQueue.Writer.WriteHandler | src/server/shared/Networking/Socket.h:216-232 | A completion, with or without an error, is the relation's step. |
| WriteQueue.Writer.DelayedCloseSocket | src/server/shared/Networking/Socket.h:143-144 | Marking for closing is the relation's step. |
| Utf8Core.AcceptsGrammar | dep/utf8cpp/utf8/core.h:222-272 | validate_next accepts a string's first sequence exactly if it is a UTF8-char of the grammar in section 4 of RFC 3629, and reports that length and code point. |
| Utf8Core.PointByTable | dep/utf8cpp/utf8/core.h:170-219 | Every UTF8-char is decoded to the number the table in section 3 of RFC 3629 gives for it. |
| Utf8Core.ErrorByShape | dep/utf8cpp/utf8/core.h:222-272 | Which error is reported for octets that are no UTF8-char, by the octets alone: invalid lead, text cut off, a trail octet missing, or a complete sequence for no code point; else overlong. |
| Utf8Core.DecodeEncoded | dep/utf8cpp/utf8/checked.h:72-96 | Every valid code point is decoded from its encoding, whatever follows. |
| Utf8Core.EncodeDecoded | dep/utf8cpp/utf8/checked.h:72-96 | Every accepted sequence is the encoding of the code point it decodes to. |
| Utf8Core.UncheckedAgrees | dep/utf8cpp/utf8/unchecked.h:60-89 | On every accepted sequence the unchecked next gives the checked one's code point and length. |
| Utf8Cursor.UncheckedStep | dep/utf8cpp/utf8/unchecked.h:60-89 | At every character of a valid string the unchecked next returns what the checked one does, and stays inside the string. |
| Utf8.SplitUtf8 | dep/utf8cpp/utf8/core.h:287-297 | Valid strings concatenate, and decoding distributes over the concatenation. |
| Utf8.FindInvalid | dep/utf8cpp/utf8/core.h:287-297 | Returns the end exactly for the strings of the grammar, else the place after the longest valid prefix. |
| Utf8.NextThrows | dep/utf8cpp/utf8/checked.h:136-154 | What next throws, by the octets alone: not enough room for a cut-off sequence, an invalid code point for a complete sequence of a surrogate, also overlong, or above 0x10ffff, else invalid UTF-8 with the first octet. |
| Utf8.FaultByShape | dep/utf8cpp/utf8/checked.h:136-154 | The loops over next throw what the octets behind the longest valid prefix call for. |
| Utf8.DecodeEncodedAll | dep/utf8cpp/utf8/checked.h:248-264 | For all valid code points: their encoding is valid and decodes to them. |
| Utf8.EncodeDecodedAll | dep/utf8cpp/utf8/checked.h:248-264 | For all valid byte strings: the decoded code points are valid and encode to the string. |
| Utf8.ValidMeansEncoded | dep/utf8cpp/utf8/core.h:287-303 | The grammar describes exactly the encodings of valid code points. |
| Utf8.Utf8to32 | dep/utf8cpp/utf8/checked.h:257-264 | Returns the code points of a valid string, else throws what the first fault calls for. |
| Utf8.Utf32to8 | dep/utf8cpp/utf8/checked.h:248-255 | Returns the encoding, or throws on the first invalid code point. |
| Utf8.Distance | dep/utf8cpp/utf8/checked.h:196-204 | Counts the code points of a valid string, else throws what the first fault calls for. |
| Utf8.DecodeEncoded16 | dep/utf8cpp/utf8/checked.h:206-246 | For all valid code points: their UTF-16 encoding (RFC 2781, section 2.1) is well formed and decodes (section 2.2) to them. |
| Utf8.EncodeDecoded16 | dep/utf8cpp/utf8/checked.h:206-246 | For all well-formed UTF-16: the decoded code points are valid and encode to it. |
| Utf16Core.PairByTable | dep/utf8cpp/utf8/checked.h:207-231 | A surrogate pair stands for 0x10000 plus 0x400 per lead from 0xd800 and one per trail from 0xdc00. |
| Utf8.Utf8to16 | dep/utf8cpp/utf8/checked.h:233-246 | Returns the UTF-16 form of a valid string's code points, else throws what the first fault calls for. |
| Utf8.Utf16to8 | dep/utf8cpp/utf8/checked.h:206-231 | Returns the UTF-8 form of well-formed UTF-16; throws exactly on an unpaired surrogate, with the offending word; the offset is added modulo 2^32. |
| Utf8.Fault16ByShape | dep/utf8cpp/utf8/checked.h:207-231 | The word named by its exception is the one behind the first unpaired surrogate if that is a lead surrogate with a word behind it, else the surrogate. |
| Utf8.Utf8Through16 | dep/utf8cpp/utf8/checked.h:206-246 | UTF-8 to UTF-16 and back is the identity on every valid UTF-8 string. |
| Utf8.Utf16Through8 | dep/utf8cpp/utf8/checked.h:206-246 | UTF-16 to UTF-8 and back is the identity on every well-formed UTF-16 string. |
| Utf16Core.SourceWords | dep/utf8cpp/utf8/core.h:52-53 | The code's surrogate offsets give the words of RFC 2781, section 2.1. |
| Utf8Repair.ReplaceInvalid | dep/utf8cpp/utf8/checked.h:98-127 | Ends on every input and returns the repaired string, or throws. |
| Utf8Repair.OneMarkPerSequence | dep/utf8cpp/utf8/checked.h:98-126 | Text that starts with no character and is not cut off gets exactly one mark for the first octet and, unless that is an invalid lead, all trail octets behind it. |
| Utf8Repair.RepairedIsValid | dep/utf8cpp/utf8/checked.h:98-127 | Whatever it returns is valid UTF-8. |
| Utf8Repair.RepairKeepsValid | dep/utf8cpp/utf8/checked.h:98-127 | It is the identity on valid strings, for any replacement. |
| Utf8Repair.RepairIsIdempotent | dep/utf8cpp/utf8/checked.h:98-127 | Repairing what was repaired changes nothing, even with another replacement. |
| Utf8Repair.RepairThrowsIff | dep/utf8cpp/utf8/checked.h:104-110 | With a valid replacement it throws if and only if the string ends in a cut-off sequence, and then not_enough_room. |
| Utf8Cursor.Prior | dep/utf8cpp/utf8/checked.h:162-175 | Goes back to the last lead octet before the position, or throws at the start or without a lead. |
| Utf8Cursor.PriorAtBoundary | dep/utf8cpp/utf8/checked.h:162-175 | At the end of a character, prior returns that character and its start: it undoes next. |
| Utf8Cursor.NextEndsChar | dep/utf8cpp/utf8/checked.h:136-154 | After next at a character's start, the position is the end of exactly that character. |
| Utf8Cursor.UncheckedPrior | dep/utf8cpp/utf8/unchecked.h:97-103 | At the end of a character the unchecked prior undoes next as well. |
| Utf8Cursor.UncheckedDistance | dep/utf8cpp/utf8/unchecked.h:119-127 | On valid strings it equals the checked distance. |
| Utf8Cursor.UncheckedUtf8to32 | dep/utf8cpp/utf8/unchecked.h:168-175 | On valid strings it gives the same code points as the checked one. |
| Utf8Cursor.UncheckedUtf8to16 | dep/utf8cpp/utf8/unchecked.h:144-157 | On valid strings it gives the same words as the checked one. |
| Ledger.KeptTransitive | src/server/game/Room/Room.cpp:60-246 | What single moves of players keep, any sequence of moves keeps. |
| Ledger.ProperKept | src/server/game/Room/Room.cpp:60-246 | Nobody comes to be in two places. |
| Ledger.LiveHumansKept | src/server/game/Room/Room.cpp:60-246 | Moves take no live human out of a seat and put none into one, except by going home after a round or by being dropped. |
| Seating.DroppedIff | src/server/game/Room/Room.cpp:65-94 | Live players are dropped if and only if some block of three from the front, or the final two, mixes logged-out and live players. |
| Passes.PassOneKept | src/server/game/Room/Room.cpp:60-136 | The pass over the waiting list keeps everybody accounted for: seated, pooled, deleted, or dropped. |
| Passes.PassOneResult | src/server/game/Room/Room.cpp:60-120 | Its outcome in closed form: threes without a logged-out player become tables; the last two, or a last one with an AI player when his time is up, a table of two; at most one live, unexpired player keeps waiting; all logged-out ones are deleted. |
| Passes.FirstPassLoses | src/server/game/Room/Room.cpp:60-120 | It takes exactly the dropped live humans out of the seats, and none if and only if no block is mixed. |
| TablePasses.PassTwoKept | src/server/game/Room/Room.cpp:138-188 | The pass over tables of two keeps everybody accounted for, sends nobody home and drops nobody. |
| TablePasses.SecondPassLosesNobody | src/server/game/Room/Room.cpp:138-188 | The live humans seated are the same before and after it. |
| TablePasses.PassTwoSettles | src/server/game/Room/Room.cpp:138-169 | After it nobody at a table of two has logged out or waited too long. |
| PairOutcomes.SecondPassTable | src/server/game/Room/Room.cpp:138-188 | The pass table by table, by counting who has logged out: of a broken table live players wait again, AI players return to the pool, the others are deleted; a full one takes a live front of the waiting list, else deletes the front and gets an AI player if it waited too long, and stays otherwise. |
| PairOutcomes.SecondPassResult | src/server/game/Room/Room.cpp:138-188 | The whole pass: who waits is the end of the waiting list followed by the players left alone, in order of the tables; deleted are the logged-out ones of broken tables and of the part of that queue that was passed; pool and third players together are the pool, the AI players of broken tables, the live ones passed, and the new AI players. |
| ThirdPass.PassThreeKept | src/server/game/Room/Room.cpp:190-246 | The pass over tables of three keeps everybody accounted for and drops nobody. |
| ThirdPass.PassThreeResult | src/server/game/Room/Room.cpp:190-246 | It leaves only tables with nobody logged out and the round not over; exactly the players, other than AI players, of the tables whose round was over go home. |
| TableOutcomes.ThirdPassResult | src/server/game/Room/Room.cpp:190-362 | The pass in closed form, by counting who has logged out at each table: tables of two grow by the pairs left of tables with one gone, the waiting list by the players left of tables with two gone, in order of the tables; whom it deletes and returns to the pool, which tables stay, and the status of every player afterwards, dealt exactly where nobody is gone, all are ready and none was dealt to. |
| ThirdPass.ThirdPassLoses | src/server/game/Room/Room.cpp:190-362 | The only live humans it takes out of the seats are those whose round is over. |
| WholeUpdate.TwoPassesHire | src/server/game/Room/Room.cpp:60-188 | The first two passes change the status and type of nobody but the AI players they take on, and clear no table of three. |
| WholeUpdate.OverThen | src/server/game/Room/Room.cpp:55-57 | The third pass finds a table over exactly if it was over before the update and none of its players is an AI player taken on since; for the tables there were, exactly if it was over before. |
| WholeUpdate.UpdateLoses | src/server/game/Room/Room.cpp:55-57 | A whole update keeps everybody in at most one place. In terms of the lists before it, exactly these live humans lose their seats: those of mixed blocks, those of tables whose round was over, and those of tables formed by it whose players were all marked so already. |
| WholeUpdate.FormedFromWaiting | src/server/game/Room/Room.cpp:60-188 | Whoever sits at a table formed by the first two passes was waiting or at a table of two, or was taken on. |
| WholeUpdate.UpdateLosesFinished | src/server/game/Room/Room.cpp:55-57 | If nobody waiting is marked as having finished a round, only mixed blocks and the tables that were over take live humans out of their seats. |
| Rooms.Room.GetPlayerFromOne | src/server/game/Room/Room.cpp:122-136 | Pops the front; deletes it and returns nobody if it has logged out. |
| Rooms.Room.GetAiPlayer | src/server/game/Room/Room.cpp:104-109 | Takes the back of the pool or a new player, marks it AI and started. |
| Rooms.Room.UpdateOne | src/server/game/Room/Room.cpp:60-120 | The loop over the waiting list, which ends on every input, performs the first pass. |
| Rooms.Room.LogoutTwo | src/server/game/Room/Room.cpp:171-188 | The four cases of a table of two are those of the specification. |
| Rooms.Room.UpdateTwo | src/server/game/Room/Room.cpp:138-169 | The erasing loop performs the second pass. |
| Rooms.Room.LogoutThree | src/server/game/Room/Room.cpp:213-246 | The eight cases of a table of three: by TableOutcomes.LogoutThreeLeaves, one left waits, two left make a table of two, the others are deleted or pooled. |
| TableOutcomes.LogoutThreeLeaves | src/server/game/Room/Room.cpp:213-246 | What one table with a logged-out player leaves behind, by counting. |
| Rooms.Room.RoundOver | src/server/game/Room/Room.cpp:320-362 | Reports a finished round and returns or marks its AI players. |
| Rooms.Room.UpdateThree | src/server/game/Room/Room.cpp:190-211 | The erasing loop performs the third pass, whose outcome is the closed form above. |
| Rooms.Room.Update | src/server/game/Room/Room.cpp:55-57 | The three passes in a row keep everybody in one place and leave only settled tables of three. |
| Cards.DeckIsDistinct | src/server/game/Room/Room.cpp:298-304 | The 54 codes are distinct and below the terminator. |
| Cards.DeckCodes | src/server/game/Room/Room.cpp:298-304 | The codes are those of four colors with thirteen faces, and the two jokers. |
| Cards.ShuffleKeepsCards | src/server/game/Room/Room.cpp:306-317 | Whatever is drawn, the swaps permute the deck. |
| Cards.EveryOrderIsDrawn | src/server/game/Room/Room.cpp:306-317 | Every order of the deck comes from some 54 draws below 54. |
| Cards.OneDrawSwaps | src/server/game/Room/Room.cpp:306-317 | The draw d in turn i, with nothing moved in the others, exchanges the cards at i and at d modulo 54 and moves no other. |
| Cards.ShuffleCard | src/server/game/Room/Room.cpp:296-318 | Fills and shuffles the array in place; the result is a permutation of the deck. |
| Cards.DealPartitions | src/server/game/Room/Room.cpp:282-294 | The three runs of 17 cards and the last 3 partition the deck. |
| Cards.Player.DealCards | src/server/game/Room/Room.cpp:291-293 | Whatever is left of an earlier deal, the hand before the terminator is the 17 cards followed by the bottom cards. |
| Cards.Player.Play | src/server/game/AI/OutCardAI.cpp:45-58 | A play takes the cards played out of the hand and leaves it fit for a new deal without a reset. |
| Cards.DealCards | src/server/game/Room/Room.cpp:282-294 | Three players, who may still hold cards, get the three deals of one shuffled deck. |
| Cards.RearrangeCards | src/server/game/AI/OutCardAI.cpp:60-74 | The in-place shift removes the first occurrence of the card from the hand, or changes nothing if it is not there; the terminator stays, and no slot from it on changes. |
| Cards.WithoutAt | src/server/game/AI/OutCardAI.cpp:60-74 | Removing a card is cutting out its first occurrence. |
| Cards.UpdateCardsFace | src/server/game/AI/OutCardAI.cpp:45-58 | Takes the played cards out of the hand one by one. |
| Cards.PlayConservesIff | src/server/game/AI/OutCardAI.cpp:45-74 | Cards left and cards played make up the hand if and only if the cards played were held. |
| Cards.WithoutAllIsSubsequence | src/server/game/AI/OutCardAI.cpp:45-74 | What is left of a hand is in its original order. |
| Cards.RoundConserves | src/server/game/AI/OutCardAI.cpp:45-74 | Over any sequence of held plays each player's left and played cards are those he was dealt, the left ones in order. |
| Cards.GameConserves | src/server/game/Room/Room.cpp:282-318 | For any draws and any round, hands and played cards are the deck and two more copies of the bottom cards, which all three players are dealt. |
| Cards.NoCardPlayedTwiceIff | src/server/game/Room/Room.cpp:282-318 | For any draws and any round of held plays: no card is played twice if and only if no bottom card is. |
| Cards.NoCardPlayedTwice | src/server/game/Room/Room.cpp:282-318 | If only the landlord plays bottom cards, no card is played more often than the deck has it, which is once. |
| Cards.BottomCardPlayedTwice | src/server/game/Room/Room.cpp:282-318 | For any draws there is a round of held plays in which a bottom card is played twice. |
| EventData.IdSurvivesIff | src/server/shared/Utilities/Util.h:654-663 | An event is executed under the id it was scheduled with if and only if the id has at most 16 bits. |
| EventData.GroupIff | src/server/shared/Utilities/Util.h:656-657 | For every 32-bit id: an event is in a group if and only if it was scheduled with it or the id has the bit of that group. |
| EventData.OwnGroupIff | src/server/shared/Utilities/Util.h:656-657 | An event is in exactly the group it was scheduled with if and only if bits 16 to 23 of its id lie within the bit of that group. |
| EventData.SpillsIntoGroup | src/server/shared/Utilities/Util.h:656-657 | An event scheduled with id 0x10001 and no group is in group 1. |
| EventData.EligibleIff | src/server/shared/Utilities/Util.h:708-712 | For every 32-bit id: an event may occur if and only if no phase is active, it has neither a phase nor a high byte in its id, its own phase is active, or the high byte names an active phase. |
| EventData.OwnPhaseIff | src/server/shared/Utilities/Util.h:708-712 | An event may occur exactly as scheduled, whatever phases are active, if and only if the high byte of its id names no phase but its own; without a phase of its own, none or all eight. |
| EventData.PhasesMeetIff | src/server/shared/Utilities/Util.h:616-622 | The bits of two phases meet if and only if they are the same phase. |
| EventData.OnlyItsPhase | src/server/shared/Utilities/Util.h:654-712 | With one phase active, an event with a 16-bit id scheduled for a phase may occur if and only if that is the active one. |
| EventData.BitTable | src/server/shared/Utilities/Util.h:656-660 | The eight groups have bits 16 to 23 and the eight phases bits 24 to 31. |
| EventMaps.TiesKeepInsertionOrder | src/server/shared/Utilities/Util.h:662-662 | Insertion keeps, for every time, the order of the entries of that time and puts the new one last. |
| EventMaps.InsertSelects | src/server/shared/Utilities/Util.h:662-662 | Insertion changes no selection of entries but by the new entry. |
| EventMaps.ExecuteStep | src/server/shared/Utilities/Util.h:704-724 | Dropping stale entries at the front exposes the first ready entry, if there is one, and no future entry is touched. |
| EventMaps.EventMap.ScheduleEvent | src/server/shared/Utilities/Util.h:654-663 | Inserts the encoded event at the wrapped time. |
| EventMaps.EventMap.Repeat | src/server/shared/Utilities/Util.h:684-687 | Inserts the event executed last again, with its group and phase. |
| EventMaps.EventMap.ExecuteEvent | src/server/shared/Utilities/Util.h:704-724 | Returns the earliest due event of an active phase and removes it; with none, returns 0 and leaves exactly the future events. |
| EventMaps.EventMap.Drain | src/server/shared/Utilities/Util.h:704-724 | Executing until 0 returns all due events of active phases, in order of time, if and only if none of them has id 0, and then leaves exactly the future events; otherwise it stops at the first id 0, which it removes, and leaves the ready events behind it. Future events stay in either case. |
| EventMaps.EventMap.DelayEvents | src/server/shared/Utilities/Util.h:742-761 | The other events keep times and order; the group's are the same events, each with the delay added. |
| EventMaps.DelayedTimes | src/server/shared/Utilities/Util.h:742-761 | Delaying keeps the events; each time grows by the delay, less 2^32 if it would not fit 32 bits. |
| EventMaps.PutBack | src/server/shared/Utilities/Util.h:742-761 | Putting delayed events back among the others changes neither. |
| EventMaps.DelayKeepsOrder | src/server/shared/Utilities/Util.h:742-761 | Delayed events keep their order as long as none of their own times wraps. |
| EventMaps.EventMap.CancelEventGroup | src/server/shared/Utilities/Util.h:787-799 | Removes exactly the events of the group, and nothing for a group outside 1 to 8. |
| EventMaps.EventMap.CancelEvent | src/server/shared/Utilities/Util.h:768-780 | Removes exactly the events with the id. |
| EventMaps.SelectSplits | src/server/shared/Utilities/Util.h:742-799 | Each test splits the events in two: every event is on exactly one side. |
| Serial.ReadsBack | src/server/shared/Packets/ByteBuffer.h:126-286 | Any integer, NUL-free text, vector (nested or not) or packed GUID that fits its type reads back equal wherever it stands in a buffer, and reading ends where it ends. |
| Serial.SequenceReadsBack | src/server/shared/Packets/ByteBuffer.h:333-355 | Any sequence of such values reads back equal and in order. |
| Serial.TextReadsBackIff | src/server/shared/Packets/ByteBuffer.h:275-286 | Text reads back if and only if it holds no NUL. |
| Serial.UnpackPacked | src/server/shared/Packets/ByteBuffer.h:365-387 | The mask and the non-zero bytes restore all eight bytes. |
| Serial.GuidReadsBack | src/server/shared/Packets/ByteBuffer.h:482-499 | Every 64-bit GUID reads back from its packed form. |
| Serial.PackedGuidLength | src/server/shared/Packets/ByteBuffer.h:482-499 | A packed GUID takes one byte and one per non-zero byte. |
| Serial.PackedLayout | src/server/shared/Packets/ByteBuffer.h:482-499 | Bit i of the mask says whether byte i of the GUID is not zero, and then that byte follows behind the non-zero ones below it. |
| Serial.SignedBytes | src/server/shared/Packets/ByteBuffer.h:126-202 | Signed numbers are written in two's complement. |
| Serial.ReadFailsIff | src/server/shared/Packets/ByteBuffer.h:357-387 | A read of a number or a packed GUID fails if and only if bytes are missing; a read of text never fails. |
| Serial.TextToTheEnd | src/server/shared/Packets/ByteBuffer.h:275-286 | Text without a NUL is read to the end of the buffer. |
| ByteBuffers.WrittenTwice | src/server/shared/Packets/ByteBuffer.h:450-464 | Two appends in a row are one append of both, wherever the write position is. |
| ByteBuffers.WrittenBytes | src/server/shared/Packets/ByteBuffer.h:450-464 | A write changes the bytes it covers and no others; a gap before it is filled with zeros. |
| ByteBuffers.ByteBuffer.Append | src/server/shared/Packets/ByteBuffer.h:450-464 | Overwrites or extends at the write position; refuses an empty source and a buffer at the size limit and then changes nothing. |
| ByteBuffers.ByteBuffer.Put | src/server/shared/Packets/ByteBuffer.h:126-202 | Writes the value's bytes at the write position; fails if and only if the buffer has grown to the size limit by the time the last append of the value starts, and is then left grown no further than the value reaches. |
| ByteBuffers.ByteBuffer.PutVector | src/server/shared/Packets/ByteBuffer.h:530-539 | A 32-bit count and the items in order, with the failures of its last append. |
| ByteBuffers.ByteBuffer.AppendPackGuid | src/server/shared/Packets/ByteBuffer.h:482-499 | The loop over the bytes builds the mask and the non-zero bytes of the GUID. |
| ByteBuffers.ByteBuffer.Get | src/server/shared/Packets/ByteBuffer.h:204-286 | Reads a value of a type, or fails where the bytes run out; the position moves to the end of the value. |
| ByteBuffers.ByteBuffer.ReadText | src/server/shared/Packets/ByteBuffer.h:275-286 | Reads to a NUL or to the end of the buffer. |
| ByteBuffers.ByteBuffer.ReadPackGuid | src/server/shared/Packets/ByteBuffer.h:365-387 | Reads the bytes the mask names and zeros elsewhere. |
| ByteBuffers.ByteBuffer.GetItems | src/server/shared/Packets/ByteBuffer.h:541-554 | Reads the counted items in order. |
| ByteBuffers.WriteThenRead | src/server/shared/Packets/ByteBuffer.h:450-464 | Values written to a fresh buffer are all accepted if and only if the last append starts below the size limit; they then read back equal in order, and the read position ends at the write position. |
| Duration.SecsToTimeString | src/server/shared/Utilities/Util.cpp:158-179 | Appends the non-zero parts in order, never none. |
| Duration.PartsShown | src/server/shared/Utilities/Util.cpp:158-179 | The short text shows exactly the parts that are not zero, seconds if all are zero, and hours whenever only hours are wanted. |
| Duration.LongReadsByLabels | src/server/shared/Utilities/Util.cpp:158-179 | The long text, read by its labels, is the duration; with hours only, its whole hours. |
| Duration.TimeStringToSecs | src/server/shared/Utilities/Util.cpp:212-242 | The loop reads the text as the specification does. |
| Duration.BadFormat | src/server/shared/Utilities/Util.cpp:212-242 | Any character that is neither digit nor unit makes the text parse to 0. |
| Duration.UnitMissing | src/server/shared/Utilities/Util.cpp:212-242 | A number without a unit at the end counts for nothing. |
| Duration.ShortReadsBack | src/server/shared/Utilities/Util.cpp:158-242 | The short text of any number of seconds parses to that number modulo 2^32; with hours only, to its whole hours. |
| Duration.LongIsRefused | src/server/shared/Utilities/Util.cpp:158-242 | The long text of any duration parses to 0: the blank is a bad format. |

## Left out

- Sfmt.StatesNeverMerge: states injectivity for N of at least 3; N = 2 is a counterexample, and the configured N is 88.
- Sfmt.SFMTRand.URandom: `IRandom` and the floating-point `Random` are not modelled; the reduction of `IRandom` is the same.
- RoomUpdater.CallsReturn: spurious wakeups are steps of the relation, but the bound on remaining steps is for runs without them, since each could repeat for ever.
- RoomUpdater.ManagedAlways: timers, `UnloadAll`'s deletion of the rooms before it stops the pool, and running without worker threads are not modelled.
- Framing.FramingRoundTrip: the session's later life, the address of the peer, and closing by another thread between two reads are not modelled.
- WorldSockets.WorldSocket.Run: a read that fails closes the socket; when reads fail is not modelled.
- WriteQueue.EndToEnd: the peer is this code's own reader; partial writes belong to the asynchronous write and are not modelled.
- Utf8Core.AcceptsGrammar: iterators are positions in a sequence, and `validate_next` with its loop-free `get_sequence_x` helpers is a function of the remaining bytes.
- Utf8Cursor.UncheckedUtf8to16: the unchecked `append`, `utf16to8` and `utf32to8`, the iterator classes and byte order marks are not modelled; nor is what the unchecked functions do on invalid input.
- Rooms.Room.GetAiPlayer: the pool belongs to one room here, while in the code all rooms share it under its lock; the new player's data other than type and status are left out.
- Rooms.Room.Update: the part of `Room::Update` that runs each player and moves started players to the waiting list, the map of players by id, the ring of neighbours and the waiting-time counters are left out; who has waited too long is a parameter of each pass.
- ThirdPass.PassThreeResult: what `dealCards` deals is in Cards; here it only changes the players' status.
- Cards.UpdateCardsFace: which plays are legal, and the AI's choice of cards, are not modelled; a play is any list of cards ended by the terminator.
- EventMaps.EventMap.ExecuteEvent: `AddPhase`, `RemovePhase`, `RescheduleEvent` and the getters would add only easy members.
- ByteBuffers.ByteBuffer.Put: floating-point values, lists and maps, packed times and coordinates, `put` at a position, and the state after a failed read are not modelled.
- Duration.TimeStringToSecs: money strings and the other string helpers of the same file are not modelled.
- Object lifetime, memory ordering below lock-protected steps, logging, configuration, and the real network are not modelled.

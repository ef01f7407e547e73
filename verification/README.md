# Device communication stack: models and proofs

A Dafny model of the parts of the Particle device firmware that carry state between a device and the
cloud: reliable CoAP delivery, chunked over-the-air updates, the nanopb encoder, published events and
their subscriptions, the light SSL stream, and the publish rate limiter.

Code that updates objects and buffers in place is modelled by classes and methods over arrays and linked
nodes. Each such method is proved equal to a function on values, and what the stack is for is proved about
those functions, over all inputs and all runs. The environment (clock, random source, allocator, network,
flash preparation) is a total function of how often it was asked, so every claim holds for whatever it
answers.

`dafny verify dfyconfig.toml` checks the whole project.

| files | what they model |
|---|---|
| `Ticks`, `Basics` | the wrapping 32-bit clock; bytes, options, errors, writing into a buffer |
| `CoapTypes`, `CoapModel`, `CoapStore` | `CoAPMessageStore`: the entries as a sequence, and the singly linked list that refines it |
| `CoapFacts`, `CoapInvariants` | what one time-out pass does; what every store operation keeps |
| `CoapSync`, `CoapWait` | `send_synchronous`: how waiting ends, and why it ends; its rounds, what goes out, and what MESSAGE_TIMEOUT means |
| `CoapSchedule`, `CoapLifetime` | one confirmable message under repeated polling; the same message in its store, over any sequence of passes |
| `CoapReliable`, `CoapDelivery` | `CoAPReliableChannel`, `CoAPChannel`; every run of a channel |
| `CoapHeader`, `CoapExchange` | the fixed CoAP header, read from RFC 7252; which requests are passed up, what an answer ends, what goes out |
| `ChunkBitmap`, `OtaModel`, `OtaTransfer` | the bitmap as a set of indexes; `ChunkedTransfer` |
| `OtaSafety`, `OtaRecovery` | what a reported success of a fast transfer means; why recovery ends |
| `OtaAnswers` | which UpdateBegins start which kind of transfer; what UpdateBegin and UpdateDone answer |
| `OtaRegular`, `OtaDialogue` | when the success of a regular transfer is true; a sender that repeats each chunk until it is answered OK |
| `OtaRejected`, `OtaRejections` | what a rejected UpdateBegin, and any number of them, does to a transfer under way |
| `SparkFlight` | the older transfer of `SparkProtocol` |
| `PbModel`, `PbStream`, `PbEncoder` | descriptors over raw memory, output streams, the encoder and the field iterator |
| `PbLayout` | the C structures behind the descriptors: members at absolute offsets, and the macros of pb.h |
| `PbParse`, `PbDefault` | a reader written from the Protocol Buffers Encoding guide; default elision |
| `EventModel`, `EventCodec`, `EventBuilder` | a reader of CoAP options written from RFC 7252; parsing an event in place; building one |
| `Subscriptions` | the table of event handlers and the dispatch |
| `Cbc`, `BufferFrames`, `LightSsl` | CBC over an abstract block cipher; windows into a shared buffer; the framed stream |
| `RateLimit` | the two limits on published events |

## Where the code does not do what one would expect

Each of these is stated exactly, with the condition under which the expectation does hold.

- A rejected UpdateBegin in the middle of a fast transfer replaces the file but not the transfer: later chunks
  go to the new address, and a later UpdateDone looks at as many chunks as the new file has, behind the
  bitmap if there are more of them. Every success reported after that is still true exactly if the old
  file is empty, or the new one has at least as many chunks (counted in 16 bits, by the old chunk size)
  and the same address, or it has more chunks and the last byte of the old bitmap has a bit to spare
  (`OtaRejected.RejectedBeginSafeIff`). For all other numbers there is a run from an accepted UpdateBegin
  that reports success for a file that is not there (`OtaRejected.RejectedBeginBreaksSafety`). The same is
  decided for any number of rejections with messages between them (`OtaRejections.RejectionsSafeIff`).
- In a regular transfer all chunks count as received from the start, so an UpdateDone reports success
  whatever has arrived (`OtaRegular.RegularReportsSuccess`). The report is true for every earlier content
  of the memory exactly if the chunk index has reached the number of chunks
  (`OtaRegular.RegularSuccessIsTrueIff`).
- An accepted chunk carries no index in a regular transfer, so the receiver cannot tell a repeat from the next
  chunk. A sender that repeats each chunk until it hears OK delivers the file (`OtaDialogue.RepeatingDelivers`).
- `time_has_passed` is not symmetric at a distance of exactly 2^31 (`Ticks.TimeHasPassedExactly`).
- An event with an empty name is not read back; with a time to live of its own it is taken for an event
  named by the three bytes of the time to live (`EventBuilder.EventRoundTripIff`, `EventBuilder.EmptyNameIsMisread`).
- A message that fits the buffer can be framed and sent, but a peer with the same buffer takes it exactly
  if its padded length fits too, for every buffer size: with 800 bytes those under 768
  (`LightSsl.LongestMessage`).
- The capacity a response is given is more than the buffer holds (`BufferFrames.ResponseFitsIff`).
- The iterator takes a padding equal to PB_SIZE_MAX between two unions for the mark of a further member of
  the first, and then reads the second at the place of the first. It finds every member of a structure at
  its place exactly if there is no such padding (`PbLayout.PlacedIff`).
- A union whose tag names no member makes a submessage that encodes to nothing count as not default
  (`PbDefault.UnknownMemberIsNotDefault`, `PbDefault.DefaultIffEmpty`).
- Adding a handler twice can fill two slots (`Subscriptions.AddingTwiceCanDuplicate`). The second time
  changes nothing exactly if the handler was known before the first, or the table is full by then, or no
  slot with its handler, data and scope has a filter that begins with its name
  (`Subscriptions.AddingTwiceIsOnceIff`).
- The limit on system events holds in a window of time exactly if the window lies inside one of the
  periods counted from the start of the clock (`RateLimit.WindowIsLimitedIff`); at every border 510 pass
  within two milliseconds (`RateLimit.TwiceAtEveryBorder`).
- The comments in light SSL speak of PKCS #1 padding; the code pads by PKCS #7 (section 6.3 of RFC 5652),
  and the model follows the code.

## Model

| member | source | states |
|---|---|---|
| `Ticks.TimeHasPassedExactly` | communication/src/coap_channel.h:279-290 | the comparison of two clock readings is decided by their wrapped distance, except at exactly 2^31, where it depends on which reading is larger |
| `Ticks.TimeHasPassedIsTrueOrder` | communication/src/coap_channel.h:279-290 | for true times less than 2^31 apart, wrapping included, it is the true order |
| `CoapStore.CoAPMessage.Create` | communication/src/coap_channel.h:165-191 | a new message, counted as live, or null without room |
| `CoapStore.CoAPMessage.PrepareRetransmit` | communication/src/coap_channel.h:218-238 | a CON is re-armed by the wait of its transmission count, and may be sent again exactly up to the fourth transmission; other types are untouched |
| `CoapStore.CoAPMessage.SetExpiration` | communication/src/coap_channel.h:260-264 | the message is never sent again and expires at the given time |
| `CoapStore.CoAPMessageStore.ForId` | communication/src/coap_channel.h:310-322 | finds the node with the id and the node before it, or null exactly if the id is not in the list |
| `CoapStore.CoAPMessageStore.FromId` | communication/src/coap_channel.h:358-363 | the node with the id, or null exactly if there is none |
| `CoapStore.CoAPMessageStore.Relink` | communication/src/coap_channel.h:327-334 | the pointers around a node and its own are set so that the chain is the old one without it, still acyclic |
| `CoapStore.CoAPMessageStore.Unlink` | communication/src/coap_channel.h:327-334 | the list of nodes and the entries it stands for without that node, order kept; the node leads nowhere |
| `CoapStore.CoAPMessageStore.Remove` | communication/src/coap_channel.h:392-400 | the list without the id |
| `CoapStore.CoAPMessageStore.ClearMessage` | communication/src/coap_channel.h:485-490 | the list without the id, and one live message less exactly if it was there |
| `CoapStore.CoAPMessageStore.Clear` | communication/src/coap_channel.h:495-501 | the empty list, with as many live messages less as there were nodes |
| `CoapStore.CoAPMessageStore.Add` | communication/src/coap_channel.h:373-385 | a message already in the list is left alone; another displaces the one with its id and becomes the head; the refusal of a linked message is unreachable |
| `CoapStore.CoAPMessageStore.Retransmit` | communication/src/coap_channel.cpp:39-47 | a due CON with transmissions left is re-armed by its next wait and sent once more; anything else due is to be removed, and nothing is sent |
| `CoapStore.CoAPMessageStore.MessageTimeout` | communication/src/coap_channel.cpp:49-55 | the handler is told once, and the channel closed once for a request |
| `CoapStore.CoAPMessageStore.Process` | communication/src/coap_channel.cpp:60-79 | the walk with a trailing pointer leaves exactly the value-level pass over the list, in the same order of actions, and a valid list |
| `CoapStore.CoAPMessageStore.Send` | communication/src/coap_channel.cpp:86-106 | a CON is stored armed with its first wait, an ACK or RST to be remembered for 45 s and never sent by a time-out, in place of any message with the id; NON is not stored; a missing id or missing room is an error and stores nothing |
| `CoapStore.CoAPMessageStore.Receive` | communication/src/coap_channel.cpp:111-156 | an ACK or RST removes its message and is consumed if there is none, a RST tells the handler; a repeated CON is consumed and its stored answer sent again; a new CON is passed up with a placeholder kept for 45 s; everything else passes (`CoapExchange` says so over every run) |
| `CoapStore.CoAPMessageStore.SendSynchronous` | communication/src/coap_channel.h:430-472 | with an id and room, the message goes out first, behind what was sent before, and an error of the channel then is the result; a CON goes out at most four times in all (if no other stored message has its bytes), and four times if MESSAGE_TIMEOUT is its own; then come the rounds of the loop and nothing else; on every exit no stored message has the id or reports to the local callback; NO_ERROR only after an ACK, MESSAGE_RESET only after a RST, MESSAGE_TIMEOUT only 60 s after the first, or an error of the channel; the store stays well-formed |
| `CoapStore.CoAPMessageStore.WaitLoop` | communication/src/coap_channel.h:452-467 | the loop ends: every round uses up a transmission or brings the clock nearer to the deadline; it leaves the state of its last round, and has given the message up only with all transmissions and waits used up |
| `CoapSync.RoundKeepsWaiting` | communication/src/coap_channel.h:452-467 | after one round the message is still pending with nothing said about it, or gone with the error telling its fate; the lexicographic measure went down |
| `CoapSync.SyncBegins` | communication/src/coap_channel.h:433-451 | what was stored and sent before the loop is pending with the callback set, and no other message reports to it |
| `CoapSync.ClearingDecides` | communication/src/coap_channel.h:469-471 | clearing the id at the end frees it and the callback and leaves the fate as it was |
| `CoapWait.FirstTry` | communication/src/coap_channel.h:433-451 | what was stored and sent before the loop counts one transmission and waits at least 4 s |
| `CoapWait.RoundTries` | communication/src/coap_channel.h:452-467 | over every round the message waited for was sent again as often as it counts, and its deadline lies all its waits behind the first transmission; if it was given up, it was sent three times more and 60 s have passed |
| `CoapWait.SendGoesOut` | communication/src/coap_channel.h:433-471 | with an id and room (for a CON, ACK or RST) the log begins with what it was and one transmission of the message, and a failing channel is the result; a CON is transmitted at most four times in all, the rounds included, and four times if it was given up; without them nothing goes out |
| `CoapStore.CoAPMessageStore.HasUnacknowledgedRequests` | communication/src/coap_channel.cpp:158-166 | true exactly if some stored message is a CON |
| `CoapFacts.ProcessPass` | communication/src/coap_channel.cpp:60-79 | a pass keeps the entries that are not due as they were, re-arms those due that may be sent again, drops the others, and keeps the order |
| `CoapFacts.ProcessLog` | communication/src/coap_channel.cpp:39-79 | it does exactly the actions of the due entries, one entry after the other |
| `CoapFacts.ProcessSettles` | communication/src/coap_channel.cpp:60-79 | after a pass at t nothing is due at t, and ids stay distinct |
| `CoapFacts.ProcessFind` | communication/src/coap_channel.cpp:60-79 | what a pass leaves under an id depends on the entry with that id alone |
| `CoapFacts.NotifiedIffExpired` | communication/src/coap_channel.cpp:49-55 | a handler hears NOT_DELIVERED exactly when an entry carrying it expires, and nothing else |
| `CoapFacts.ExpiryReportsOnce` | communication/src/coap_channel.cpp:49-55 | the actions of one CON that is due after its last transmission are exactly one NOT_DELIVERED (if a handler is set) and one CLOSE; over the life of a message see `CoapLifetime.StoredConIsOnSchedule` |
| `CoapFacts.WaitInRange` | communication/src/coap_channel.h:152-156 | wait k lies in [4000*2^k, 6000*2^k) for every random draw, without 32-bit overflow |
| `CoapInvariants.ProcessKeeps` | communication/src/coap_channel.cpp:60-79 | a pass keeps the invariants of both stores and the balance of live and stored messages |
| `CoapInvariants.StoreSendKeeps` | communication/src/coap_channel.cpp:86-106 | so does send: the client store holds only CONs sent one to four times, the server store only answers and placeholders that are never sent by a time-out |
| `CoapInvariants.StoreReceiveKeeps` | communication/src/coap_channel.cpp:111-156 | so does receive |
| `CoapSchedule.PolledIsProcess` | communication/src/coap_channel.cpp:60-79 | one poll in the life of a single message is one step of `process` at it; the store and its log are in `CoapLifetime.PassIsPoll` |
| `CoapSchedule.RetransmissionSchedule` | communication/src/coap_channel.h:218-238 | the life of a message taken by itself, for all polls at most `late` behind the deadlines: at most four transmissions, each wait in its doubling range, first to last under 42 s + 3 late (within MAX_TRANSMIT_SPAN for late up to 1 s), failure between 60 s and 90 s + 4 late |
| `CoapSchedule.AtMostFourTransmissions` | communication/src/coap_channel.h:218-228 | never more than four transmissions, however irregular the polling |
| `CoapSchedule.RegularIsPunctual` | communication/src/coap_channel.cpp:60-79 | polling at least every `late` ms never finds a deadline more than `late` behind |
| `CoapLifetime.PassAddsOwn` | communication/src/coap_channel.cpp:60-79 | the log of a pass over a store is what the pass would do without the message with a given id, with the actions of that message at one place in it |
| `CoapLifetime.PassIsPoll` | communication/src/coap_channel.cpp:60-79 | one pass over a store, whatever else is in it, is one poll of the message with a given id: what is left under the id, its transmissions and its reports agree before and after |
| `CoapLifetime.TurnsFollowLife` | communication/src/coap_channel.cpp:60-79 | over any passes, with anything else happening to the store between them, the entry under the id follows the life of the message for the draws that the passes took |
| `CoapLifetime.StoredConIsOnSchedule` | communication/src/coap_channel.cpp:39-79 | for a CON in a store with distinct ids, over any passes that find its deadline at most `late` behind: at most four transmissions with doubling waits, first to last under 42 s + 3 late (within MAX_TRANSMIT_SPAN for late up to 1 s); the logs hold for it exactly those retransmissions and, exactly if it is gone, one NOT_DELIVERED if a handler is set and one CLOSE, 60 s to 90 s + 4 late after the first |
| `CoapLifetime.SendStartsLife` | communication/src/coap_channel.cpp:86-106 | `send` puts a CON into the store in the state from which the schedule starts |
| `CoapLifetime.HandlerStartsLife` | communication/src/coap_channel.h:433-451 | so does a synchronous send once it has set its handler |
| `CoapReliable.CoAPReliableChannel.Forget` | communication/src/coap_channel.h:585-590 | establish forgets both stores, and every stored message stops being live |
| `CoapReliable.CoAPReliableChannel.Receive` | communication/src/coap_channel.h:646-661 | what arrives goes to the store of its kind (requests only if wanted), then both stores get a time-out pass at their own clock reading, also after an error or with nothing arrived |
| `CoapReliable.CoAPReliableChannel.Send` | communication/src/coap_channel.h:597-611 | short messages go straight out, synchronous ones are stored, go out at once and are waited for round by round, with MESSAGE_TIMEOUT only after all retransmissions, others are stored and sent once |
| `CoapReliable.CoAPReliableChannel.SendAndStore` | communication/src/coap_channel.h:603-610 | a request is stored in client, an answer in server, the other store stays as it is; sent exactly if it could be stored |
| `CoapReliable.CoAPReliableChannel.HasUnacknowledgedRequests` | communication/src/coap_channel.h:634-637 | true exactly if the client store is not empty or the server store holds a CON |
| `CoapReliable.CoAPChannel.Number` | communication/src/coap_channel.h:62-82 | the id of the message, or the next one modulo 2^16, is written to bytes 2 and 3 and to the message; no other byte changes |
| `CoapReliable.ReceiveKeeps` | communication/src/coap_channel.h:646-661 | after every receive both stores are well-formed, live messages are the stored ones, and nothing was due in either at its own pass |
| `CoapReliable.SendKeeps` | communication/src/coap_channel.h:597-611 | after every send both stores are well-formed and live messages are the stored ones |
| `CoapDelivery.RunKeepsStores` | communication/src/coap_channel.h:510-663 | after any calls in any order, establish among them: distinct ids, only CONs in client, only answers and placeholders in server, live messages exactly the stored ones |
| `CoapDelivery.MessageCountIsExact` | communication/src/coap_channel.h:165-191 | the 16-bit message_count is the number of stored messages modulo 2^16, after any run |
| `CoapDelivery.RunKeepsMemory` | communication/src/coap_channel.cpp:86-156 | after any run the server store remembers the latest happening of every id since the last establish for MAX_TRANSMIT_SPAN of true time |
| `CoapDelivery.AtMostOnce` | communication/src/coap_channel.cpp:130-153 | over every run, two requests with the same id are passed up without establish in between only if at least 45000 ms of true time lie between, across clock wraps; that they are passed up at all is in `CoapExchange.NewRequestIsPassedUp` |
| `CoapDelivery.RepeatIsAnswered` | communication/src/coap_channel.cpp:132-141 | a repeat within that time is consumed, and answered again byte for byte if it was answered |
| `CoapHeader.StoresReadTheHeader` | communication/src/coap.cpp:42-52 | the type and id the stores decide by are those of the header as section 3 of RFC 7252 lays it out |
| `CoapExchange.ConIsPassedUpIff` | communication/src/coap_channel.cpp:130-153 | a CON reaches the application unchanged exactly if its id is not in the server store and there is room; a known one is consumed, and without room it is INSUFFICIENT_STORAGE |
| `CoapExchange.NonIsPassedUp` | communication/src/coap_channel.cpp:111-156 | a NON reaches the application whenever requests are wanted |
| `CoapExchange.NewRequestIsPassedUp` | communication/src/coap_channel.cpp:142-153 | over every run: a CON with whose id nothing has happened since the last establish is passed up unchanged if there is room, and the history grows by exactly that |
| `CoapExchange.UnwantedIsLeftAlone` | communication/src/coap_channel.h:646-661 | a receive that fails, has nothing, or gets a request while only answers are wanted leaves the message as it is and does nothing but the time-outs of both stores |
| `CoapExchange.AnswerEndsMessage` | communication/src/coap_channel.cpp:115-129 | an ACK or RST takes its message out of the client store before the time-outs run, so nothing of it is sent in that receive or after; all other messages stay; the log is the answer, what a RST says, and the time-outs of the others |
| `CoapExchange.SendGoesOutOnce` | communication/src/coap_channel.h:603-610 | a message that is not waited for is transmitted exactly once, if it has an id and room; a CON is then stored in client for 4 to 6 s, an answer in server for 45 s, and nothing else is stored; without them nothing goes out |
| `CoapExchange.ShortGoesOut` | communication/src/coap_channel.h:597-600 | a message too short for a header goes straight out |
| `ChunkBitmap.FlagInserts` | communication/src/chunked_transfer.h:105-109 | setting the bit by shift and mask inserts exactly one index |
| `ChunkBitmap.FillIsAllOrNothing` | communication/src/chunked_transfer.cpp:368-373 | filling the bytes with 0 or 0xFF is the empty or the full set |
| `ChunkBitmap.LeastMissing` | communication/src/chunked_transfer.cpp:351-366 | the first entry of the list of missing indexes is the least missing one |
| `OtaTransfer.ChunkedTransfer.IsChunkReceived` | communication/src/chunked_transfer.h:111-114 | testing the bit is membership |
| `OtaTransfer.ChunkedTransfer.FlagChunkReceived` | communication/src/chunked_transfer.h:105-109 | inserts exactly that index |
| `OtaTransfer.ChunkedTransfer.SetChunksReceived` | communication/src/chunked_transfer.cpp:368-373 | the full or the empty set |
| `OtaTransfer.ChunkedTransfer.NextChunkMissing` | communication/src/chunked_transfer.cpp:351-366 | the least missing index not below start, or NO_CHUNKS_MISSING exactly if there is none |
| `OtaTransfer.ChunkedTransfer.FillRequest` | communication/src/chunked_transfer.cpp:309-318 | the request lists the first `count` missing indexes, and the last of them is remembered |
| `OtaTransfer.ChunkedTransfer.SendMissingChunks` | communication/src/chunked_transfer.cpp:292-331 | sends one request for the first `count` missing chunks, and nothing if none is missing; the bitmap is unchanged |
| `OtaTransfer.Host.PrepareForFirmwareUpdate` | system/src/system_update.cpp:214-262 | the callback answers and may return any other descriptor, since it gets it by reference |
| `OtaTransfer.ChunkedTransfer.BeginTransfer` | communication/src/chunked_transfer.cpp:84-97 | the transfer starts at index 0 with the chunk size of the file and a new bitmap for it, empty (fast) or full (regular) |
| `OtaTransfer.ChunkedTransfer.HandleUpdateBegin` | communication/src/chunked_transfer.cpp:26-109 | an UpdateBegin whose two preparations succeed, whose chunks can be numbered and whose acknowledgement gets out starts a transfer of the file as the callback left it, with an empty (fast) or full (regular) bitmap; any other replaces the file and leaves transfer and bitmap alone |
| `OtaTransfer.ChunkedTransfer.ReadOptions` | communication/src/chunked_transfer.cpp:132-151 | the option loop finds the checksum, the index and the payload marker |
| `OtaTransfer.ChunkedTransfer.HandleChunk` | communication/src/chunked_transfer.cpp:112-212 | exactly a chunk that passes its checksum is saved, at file address + index * chunk size, and flagged; a regular chunk is acknowledged first and answered after, OK exactly if it passes (`OtaDialogue.RegularReply`); outside an update nothing happens but the count |
| `OtaTransfer.ChunkedTransfer.HandleUpdateDone` | communication/src/chunked_transfer.cpp:214-290 | with nothing missing the file is validated, acknowledged and, in an update, finished with SUCCESS; with something missing it is refused and a request goes out; nothing more happens if the acknowledgement does not get out |
| `OtaSafety.SuccessMeansWholeFile` | communication/src/chunked_transfer.cpp:112-290 | end to end, after an accepted fast UpdateBegin: whatever chunk messages are lost, repeated, reordered or damaged, if anything is ever reported as finished then the memory holds the whole file from then on |
| `OtaSafety.ChunkKeepsSound` | communication/src/chunked_transfer.cpp:112-212 | no chunk message makes a flagged chunk wrong in memory, and no set bit is cleared |
| `OtaSafety.DoneKeepsSound` | communication/src/chunked_transfer.cpp:248-290 | an UpdateDone reports only when every chunk is flagged |
| `OtaSafety.BeginIsSound` | communication/src/chunked_transfer.cpp:66-109 | after an accepted fast UpdateBegin nothing is flagged and nothing reported, whatever went before |
| `OtaRejected.RejectedBeginOverwritesFile` | communication/src/chunked_transfer.cpp:47-75 | a rejected UpdateBegin replaces the file by what the callback made of it, restarts the count of the flight and sends at most replies; nothing else of the transfer or the memory changes |
| `OtaRejected.HarmlessIsKept` | communication/src/chunked_transfer.cpp:112-290 | for all runs: fast UpdateBegin, messages, rejected UpdateBegin, messages, with anything in memory behind the bitmap. If the old file is empty, or the new one has at least as many chunks and the same address, or has more and the last byte of the bitmap has a bit to spare, then anything reported as finished after the rejection means that the old file is in memory |
| `OtaRejected.RejectedBeginBreaksSafety` | communication/src/chunked_transfer.cpp:47-75 | for all other lengths and addresses: an accepted UpdateBegin of twenty bytes, a rejected one of twenty bytes, intact chunks and an UpdateDone after which success is reported for a file that is not there |
| `OtaRejected.RejectedBeginSafeIff` | communication/src/chunked_transfer.cpp:248-277 | so reports after a rejected UpdateBegin are true in every run exactly under that condition on lengths and addresses |
| `OtaRejections.ChaptersKeep` | communication/src/chunked_transfer.cpp:26-290 | the invariant over any number of rejections and the messages between: flagged chunks are right as long as no rejected file had another address, and after a success nothing is written and the old file is in memory |
| `OtaRejections.AllHarmlessIsKept` | communication/src/chunked_transfer.cpp:26-290 | if no rejected file has fewer chunks, and every file up to one that lets the search end has the old address, then a success reported after the first rejection means that the old file is in memory, in every run |
| `OtaRejections.BreakingTaleIsToldNotKept` | communication/src/chunked_transfer.cpp:26-290 | for all other sequences of files: an accepted UpdateBegin, all the rejected ones, intact chunks and an UpdateDone after which success is reported for a file that is not there |
| `OtaRejections.RejectionsSafeIff` | communication/src/chunked_transfer.cpp:26-290 | so reports of success after any number of rejections are true in every run exactly under that condition on lengths and addresses |
| `OtaRegular.RegularReportsSuccess` | communication/src/chunked_transfer.cpp:248-277 | an UpdateDone of a regular transfer reports success whatever has arrived |
| `OtaRegular.RegularChunkKeepsPrefix` | communication/src/chunked_transfer.cpp:165-193 | with chunks in order, the chunks counted so far are in memory and everything else is as it was |
| `OtaRegular.RegularDoneKeepsPrefix` | communication/src/chunked_transfer.cpp:248-290 | so after every UpdateDone |
| `OtaRegular.RunKeepsPrefix` | communication/src/chunked_transfer.cpp:112-290 | so after every run of messages in order |
| `OtaRegular.TransferSavesPrefix` | communication/src/chunked_transfer.cpp:26-290 | from an accepted regular UpdateBegin on: the receiver ends in the same state whatever the memory held, with the prefix saved that its index says |
| `OtaRegular.RegularSuccessIsTrueIff` | communication/src/chunked_transfer.cpp:26-290 | end to end, after an accepted regular UpdateBegin and any messages in order, an UpdateDone reports success, and the report is true for every earlier content of the memory exactly if the index has reached the number of chunks |
| `OtaAnswers.BeginDescribes` | communication/src/chunked_transfer.cpp:31-46 | what twenty bytes say: chunk size, length, store and address in network order |
| `OtaAnswers.BeginAnswers` | communication/src/chunked_transfer.cpp:26-109 | a transfer starts exactly if the callback takes the file twice, the file as it left it needs fewer than 65535 chunks, and the acknowledgement gets out; the acknowledgement comes first and says whether the file was acceptable, UpdateReady last and only if the transfer starts |
| `OtaAnswers.BeginKind` | communication/src/chunked_transfer.cpp:26-109 | it is fast exactly if the override says so, or without one the lowest flag bit is set; no chunk counts as received then, and every chunk otherwise |
| `OtaAnswers.DoneAnswers` | communication/src/chunked_transfer.cpp:214-290 | an UpdateDone is answered OK exactly if every chunk is flagged; then it is validated before and, in an update, finished after; otherwise it is answered BAD, and in an update chunks are asked for |
| `OtaDialogue.RegularReply` | communication/src/chunked_transfer.cpp:154-205 | a regular chunk whose acknowledgement gets out is acknowledged and answered, OK exactly if it passes its checksum, and exactly then the index goes up by one (modulo 2^16) and the memory is written with it |
| `OtaDialogue.FastIsSilent` | communication/src/chunked_transfer.cpp:154-205 | a fast chunk is not answered |
| `OtaDialogue.DialogueKeepsStep` | communication/src/chunked_transfer.cpp:112-212 | over all messages of a sender that repeats each chunk until it hears OK: the receiver expects the chunk the sender is at, and all before it are in memory |
| `OtaDialogue.RepeatingDelivers` | communication/src/chunked_transfer.cpp:26-290 | end to end, with messages lost or damaged: the index is the number of chunks answered OK, and with all of them answered the whole file is in memory and an UpdateDone reports success |
| `OtaRecovery.ResendCountGrows` | communication/src/chunked_transfer.cpp:282-284 | between 2 and 40, and below 40 at least two more than the last flight had |
| `OtaRecovery.RequestListsMissing` | communication/src/chunked_transfer.cpp:295-329 | read back as big-endian pairs, the request is strictly increasing and exactly the first min(count, m) of the m missing indexes |
| `OtaRecovery.RequestIsCoap` | communication/src/chunked_transfer.cpp:292-331 | an RFC 7252 reader takes the request as a confirmable GET of "c" without token, with the indexes as payload |
| `OtaRecovery.ChunkMessageParses` | communication/src/chunked_transfer.cpp:132-171 | a chunk message of a fast transfer gives back its checksum, index and chunk |
| `OtaRecovery.RegularMessageParses` | communication/src/chunked_transfer.cpp:132-171 | a chunk message of a regular transfer gives back its checksum and chunk, and no index |
| `OtaRecovery.RoundShrinks` | communication/src/chunked_transfer.cpp:266-331 | a round with intact replies fills in exactly the chunks it asked for |
| `OtaRecovery.RecoveryFinishes` | communication/src/chunked_transfer.cpp:248-331 | with m chunks missing, after at most ceil(m/2) rounds the next UpdateDone ends with reporting success |
| `SparkFlight.SparkTransfer.SendMissingChunks` | communication/src/spark_protocol.cpp:752-786 | a new flight lists the first forty missing chunks, under the next message id, which is used up even if nothing is missing |
| `SparkFlight.SparkTransfer.NextMessageId` | communication/src/spark_protocol.cpp:1698-1701 | the id after the last one, modulo 2^16 |
| `SparkFlight.SparkTransfer.HandleChunk` | communication/src/spark_protocol.cpp:1112-1219 | exactly a chunk that passes its checksum is saved and flagged; in recovery the last one finishes the update, and one that completes the flight asks for the next; every reply to a regular chunk takes the next message id |
| `SparkFlight.SparkTransfer.HandleUpdateDone` | communication/src/spark_protocol.cpp:1283-1314 | finishes with SUCCESS exactly with nothing missing, otherwise starts a flight; it does not ask whether a transfer is under way |
| `SparkFlight.NewFlightIsOk` | communication/src/spark_protocol.cpp:767-775 | nothing missing up to the last chunk of a new flight is left out of it, and that chunk is its greatest |
| `SparkFlight.ChunkKeepsFlight` | communication/src/spark_protocol.cpp:1170-1201 | every chunk message keeps the flight invariant; if it sends a request for missing chunks, every chunk of the flight before is in, and the new flight is what the request lists; it reports success only when nothing is missing |
| `SparkFlight.DoneKeepsFlight` | communication/src/spark_protocol.cpp:1283-1314 | so does an UpdateDone, except that it does not wait for the flight before |
| `SparkFlight.EveryFlightIsOk` | communication/src/spark_protocol.cpp:1112-1314 | in every state of every run: while chunks are recovered, every missing chunk up to missed_chunk_index is in the current flight; success only with nothing missing |
| `SparkFlight.RecoveryProceeds` | communication/src/spark_protocol.cpp:1170-1201 | an accepted chunk in recovery ends the update exactly if nothing is missing any more, and otherwise asks for the next flight exactly if the current one is in |
| `SparkFlight.SparkReply` | communication/src/spark_protocol.cpp:1143-1213 | a regular chunk is acknowledged and answered OK exactly if it passes its checksum, and exactly then the index goes up and the memory is written |
| `SparkFlight.SparkDoneAnswers` | communication/src/spark_protocol.cpp:1283-1314 | an UpdateDone is answered OK and finishes exactly if nothing is missing; otherwise it is answered BAD and the first forty missing chunks are asked for |
| `SparkFlight.SparkTransfer.HandleUpdateBegin` | communication/src/spark_protocol.cpp:1046-1110 | decides and answers as `ChunkedTransfer` does; a transfer that starts takes the next message id for UpdateReady; any other leaves transfer and bitmap alone |
| `SparkFlight.SparkBeginIsSound` | communication/src/spark_protocol.cpp:1046-1110 | after an accepted fast UpdateBegin nothing is flagged and nothing reported, whatever went before |
| `SparkFlight.SparkChunkKeepsSound` | communication/src/spark_protocol.cpp:1112-1219 | no chunk message makes a flagged chunk wrong in memory, and success is reported only with every chunk flagged |
| `SparkFlight.SparkDoneKeepsSound` | communication/src/spark_protocol.cpp:1283-1314 | nor does an UpdateDone |
| `SparkFlight.SparkRunKeepsSound` | communication/src/spark_protocol.cpp:1112-1314 | over every run flagged chunks stay right in memory, and a report means that all are flagged |
| `SparkFlight.SparkSuccessMeansWholeFile` | communication/src/spark_protocol.cpp:1046-1314 | end to end, after an accepted fast UpdateBegin and in every state of every run, with chunks lost, repeated, reordered or damaged: if anything was reported as finished since, the whole file is in memory |
| `PbEncoder.FieldIter.Begin` | nanopb/nanopb/pb_common.c:8-18 | at the first field and its data |
| `PbEncoder.FieldIter.Next` | nanopb/nanopb/pb_common.c:20-76 | at the next field, its data where the descriptors place it, which is the offset of the member of the structure (`PbLayout.FieldIsMember`), with the required fields before it counted; false exactly when it wrapped to the first |
| `PbEncoder.FieldIter.Find` | nanopb/nanopb/pb_common.c:78-95 | found exactly if some field has the tag; goes round at most once |
| `PbEncoder.UnionSharesSize` | nanopb/nanopb/pb_common.c:45-73 | although the size pointer is not moved inside a union, it is the one the encoder computes |
| `PbStream.OStream.Write` | nanopb/nanopb/pb_encode.c:99-117 | succeeds exactly if it fits; then the bytes are in the buffer, or counted |
| `PbStream.OStream.BufWrite` | nanopb/nanopb/pb_encode.c:70-80 | the bytes are in the buffer at the old position, the rest unchanged |
| `PbEncoder.EncodeVarint` | nanopb/nanopb/pb_encode.c:538-558 | outputs exactly the base 128 varint of any 64-bit number |
| `PbEncoder.EncodeSVarint` | nanopb/nanopb/pb_encode.c:560-569 | outputs exactly the varint of the zigzag form |
| `PbEncoder.EncodeFixed32` | nanopb/nanopb/pb_encode.c:571-580 | outputs exactly the four bytes in memory order, although it takes the number apart by shifts |
| `PbEncoder.EncodeFixed64` | nanopb/nanopb/pb_encode.c:583-596 | the same for eight bytes |
| `PbEncoder.EncodeTag` | nanopb/nanopb/pb_encode.c:599-603 | outputs exactly the key |
| `PbEncoder.EncodeString` | nanopb/nanopb/pb_encode.c:638-644 | outputs exactly length and bytes |
| `PbEncoder.EncodeValue` | nanopb/nanopb/pb_encode.c:698-828 | the payload of one value, or refused for a bad size or a missing descriptor |
| `PbEncoder.EncodeTagged` | nanopb/nanopb/pb_encode.c:605-635 | key and payload |
| `PbEncoder.EncodeArray` | nanopb/nanopb/pb_encode.c:124-209 | a packed array as one record whose length is that of its elements, any other as one record for each; refused beyond the array size |
| `PbEncoder.PackedSize` | nanopb/nanopb/pb_encode.c:142-167 | the size determined in advance is the size of the elements, fixed width or by a sizing pass |
| `PbEncoder.EncodeSubmessage` | nanopb/nanopb/pb_encode.c:646-694 | sizing pass and writing pass agree at every depth: the branch "submsg size changed" is not reachable |
| `PbEncoder.EncodeField` | nanopb/nanopb/pb_encode.c:305-383 | outputs exactly the specified bytes of a required, optional, repeated or oneof field |
| `PbEncoder.EncodeMessage` | nanopb/nanopb/pb_encode.c:485-507 | succeeds exactly if no field is refused and the output fits, and then the output is exactly the specified one, on writing and on counting streams alike |
| `PbEncoder.GetEncodedSize` | nanopb/nanopb/pb_encode.c:524-533 | known exactly if the encoder would not refuse, and then the number of bytes it writes |
| `PbEncoder.EncodeToBuffer` | nanopb/nanopb/pb_encode.c:82-97 | succeeds exactly if the encoded size fits the buffer; then the front of the buffer is the message and the rest is unchanged |
| `PbEncoder.CheckDefault` | nanopb/nanopb/pb_encode.c:213-301 | decides default values as specified, at every depth |
| `PbLayout.FieldIsMember` | nanopb/nanopb/pb_common.c:8-76 | for every structure given by absolute offsets and sizes, with descriptors as the macros of pb.h fill them in: the data pointer at field i is the base plus the offset of member i |
| `PbLayout.PlacedIff` | nanopb/nanopb/pb.h:388-400 | all members are found at their places exactly if no padding between two unions equals PB_SIZE_MAX |
| `PbLayout.StructRoundTrip` | nanopb/nanopb/pb_encode.c:485-507 | an independent reader of the encoding gives back what the members of the structure hold, each read at its own offset by a reader of little-endian numbers, in order and at every depth |
| `PbLayout.EncodesIff` | nanopb/nanopb/pb_encode.c:485-507 | a structure is refused exactly if an array in it counts more elements than it has, bytes do not keep to their buffer, or a submessage has no descriptors, at any depth |
| `PbParse.RoundTrip` | nanopb/nanopb/pb_encode.c:485-507 | for every well-formed descriptor, memory and nesting: an independent reader gives back exactly the present fields, in descriptor order, with the values in memory |
| `PbParse.EncodingIsInjective` | nanopb/nanopb/pb_encode.c:485-507 | equal bytes mean equal present fields |
| `PbParse.FieldRoundTrip` | nanopb/nanopb/pb_encode.c:305-383 | one field reads back as its entries, whatever follows |
| `PbParse.PackedRecord` | nanopb/nanopb/pb_encode.c:137-181 | a packed array reads back as one record of its elements |
| `PbParse.ElementsRoundTrip` | nanopb/nanopb/pb_encode.c:182-206 | any other array as one record for each element |
| `PbParse.ValueRoundTrip` | nanopb/nanopb/pb_encode.c:698-828 | a payload reads back as the value in memory: integers of every size, zigzag, fixed width, bytes, strings, submessages |
| `PbParse.VarintRoundTrip` | nanopb/nanopb/pb_encode.c:538-558 | every varint reads back |
| `PbParse.ZigZagRoundTrip` | nanopb/nanopb/pb_encode.c:560-569 | zigzag is undone for every 64-bit number |
| `PbDefault.DefaultIffEmptyAndUnset` | nanopb/nanopb/pb_encode.c:213-301 | whatever the memory, a message is all default exactly if it encodes to nothing and no union in it is set |
| `PbDefault.DefaultIffEmpty` | nanopb/nanopb/pb_encode.c:213-301 | with unions unset or set to members, exactly if it encodes to nothing |
| `PbDefault.FieldDefaultIff` | nanopb/nanopb/pb_encode.c:213-301 | a field is default exactly if it is not encoded and, in a union, none is set |
| `PbDefault.SkippedIffNothingInIt` | nanopb/nanopb/pb_encode.c:305-383 | a submessage is skipped exactly if its encoding is empty, and then its value is the message without fields: nothing but presence is lost |
| `PbDefault.ScalarSkippedIffDefault` | nanopb/nanopb/pb_encode.c:236-291 | a field of any other type without a flag of its own is skipped exactly if its value in memory is the default that the Encoding guide gives an absent field |
| `PbDefault.UnknownMemberIsNotDefault` | nanopb/nanopb/pb_encode.c:228-232 | a union set to no member encodes to nothing and is not default |
| `EventCodec.OptionDecode` | communication/src/coap.cpp:54-80 | length and value of an option for one-byte, 13-nibble and 14-nibble headers; length 0 without moving for the reserved nibble |
| `EventCodec.JoinPath` | communication/src/subscriptions.h:124-139 | the loop ends and leaves exactly the segments, each behind a slash; it never overtakes what it has not read, and every byte behind the path is as it was |
| `EventCodec.JoiningStep` | communication/src/subscriptions.h:127-138 | one round keeps: next_dst is not beyond next_src, what lies unread is untouched |
| `EventCodec.ReadEvent` | communication/src/subscriptions.h:105-146 | the event in the message, its name joined in place where it stood, nothing before it changed |
| `EventCodec.ParseEvent` | communication/src/subscriptions.h:105-151 | the same with name and data each followed by a zero byte in the buffer; no event exactly for a missing name |
| `EventModel.HandlesWhatCoapReads` | communication/src/subscriptions.h:105-146 | every message that an RFC 7252 reader takes as path kind, path segments, perhaps Max-Age, perhaps payload is handled as the segments joined by slashes and that payload, for every option length |
| `EventBuilder.EventNameUriPath` | communication/src/events.cpp:89-108 | the option of a name, and nothing for an empty one |
| `EventBuilder.BuildEvent` | communication/src/messages.cpp:299-331 | exactly the message of the event at the front of the buffer, the rest unchanged; what CoAP reads in it is in `EventBuilder.EventIsCoap` |
| `EventBuilder.EventHeader` | communication/src/messages.cpp:303-306 | version 1, CON exactly if confirmable and NON otherwise, code 0.02, no token, and the id modulo 2^16 |
| `EventBuilder.EventIsCoap` | communication/src/messages.cpp:299-331 | an RFC 7252 reader takes it as version 1, confirmable exactly if it should be and non-confirmable otherwise, POST, without token, with the id modulo 2^16; and as the event path, the name, the time to live unless it is 60, and the data |
| `EventBuilder.TtlRoundTrip` | communication/src/messages.cpp:313-319 | the three bytes give back every time to live up to MAX_EVENT_TTL_SECONDS |
| `EventBuilder.EventRoundTripIff` | communication/src/messages.cpp:299-331 | the handler takes the same name (up to 64 bytes) and data from a published event, for every time to live, exactly if the name is not empty |
| `EventBuilder.EmptyNameIsMisread` | communication/src/events.cpp:89-94 | an empty name with a time to live of its own is read as the three bytes of the time to live |
| `Subscriptions.Table.constructor` | communication/src/subscriptions.h:62-65 | an empty table |
| `Subscriptions.Table.HandlerExists` | communication/src/subscriptions.h:255-281 | decided by the first slot with the same handler, data and scope whose filter begins with the name |
| `Subscriptions.Table.AddEventHandler` | communication/src/subscriptions.h:286-313 | known handlers change nothing; others are appended to the used slots, or refused exactly if five are used |
| `Subscriptions.Table.RemoveEventHandlers` | communication/src/subscriptions.h:220-250 | the used slots are the others in their order, at the front of the table, the rest empty |
| `Subscriptions.Table.Dispatch` | communication/src/subscriptions.h:153-199 | calls exactly the handlers whose filter the name begins with, once each, in slot order, with the name and data of the event |
| `Subscriptions.Table.HandleEvent` | communication/src/subscriptions.h:83-201 | on an unreliable channel with room for a response the acknowledgement of a CON goes out before any handler is called, and everything stops if that fails; MALFORMED exactly without a name; otherwise exactly the calls of the event in the message follow |
| `Subscriptions.KeptInOrder` | communication/src/subscriptions.h:220-250 | removal keeps exactly the handlers of other names, in order |
| `Subscriptions.AnotherIsAdded` | communication/src/subscriptions.h:286-313 | with a free slot and no slot of the same handler, data and scope whose filter begins with the name, the handler is added behind the others, with at most twelve bytes of the device id |
| `Subscriptions.FirstDecides` | communication/src/subscriptions.h:255-281 | the first such slot decides: the handler is known exactly if neither names a device, or the device of the slot begins with the one requested |
| `Subscriptions.AddingTwiceIsOnceIff` | communication/src/subscriptions.h:255-313 | for every table: adding a handler again changes nothing exactly if it was known before, or the table is full by then, or no slot with the same handler, data and scope has a filter that begins with the name |
| `Subscriptions.AddingTwiceCanDuplicate` | communication/src/subscriptions.h:255-313 | a table reached from the empty one in which the second time fills a second slot |
| `Subscriptions.RunHolds` | communication/src/subscriptions.h:220-313 | after any run the table holds exactly the handlers that some step inserted and no later step removed |
| `Subscriptions.DispatchAfterRun` | communication/src/subscriptions.h:153-313 | after any run an event calls a handler exactly if it was inserted, not removed since, and the name begins with its filter |
| `Cbc.CbcRoundTrip` | communication/src/lightssl_message_channel.cpp:79-80 | decryption undoes encryption, for every invertible block cipher, vector and data |
| `Cbc.UnpadPad` | communication/src/lightssl_message_channel.cpp:130-134 | taking off the padding gives back the message; what the padding is, is in `Cbc.PaddingCountsItself` |
| `Cbc.PaddingCountsItself` | communication/src/lightssl_message_channel.cpp:130-134 | one to sixteen bytes are added, up to whole blocks, each of them their number |
| `Cbc.CbcIsChained` | communication/src/lightssl_message_channel.cpp:144-149 | every ciphertext block is the encryption of its plaintext block exclusive-ored with the ciphertext block before, the first with the vector |
| `Cbc.XorIsBitwise` | communication/src/lightssl_message_channel.cpp:144-149 | that exclusive or works on each of the eight binary digits of a byte |
| `LightSsl.FrameOnWire` | communication/src/lightssl_message_channel.cpp:130-149 | the length of the padded message, high byte first, and the padded message under CBC; the next vector is the first ciphertext block |
| `LightSsl.LightSSLMessageChannel.Wrap` | communication/src/lightssl_message_channel.cpp:130-142 | exactly the frame of the message in its place, the rest of the buffer unchanged, the vector moved on to the first ciphertext block |
| `LightSsl.LightSSLMessageChannel.Encrypt` | communication/src/lightssl_message_channel.cpp:144-149 | CBC in place; the next vector is the first block, not the last |
| `LightSsl.LightSSLMessageChannel.BlockingSend` | communication/src/lightssl_message_channel.cpp:201-233 | exactly the bytes its calls were granted, up to all of them, in order; it fails exactly after a failing call or more than 20 s, and it ends |
| `LightSsl.LightSSLMessageChannel.BlockingReceive` | communication/src/lightssl_message_channel.cpp:236-268 | exactly the next bytes of the stream that its calls were granted, up to all of them; it fails exactly after a failing call or more than 20 s, and it ends |
| `LightSsl.LightSSLMessageChannel.Send` | communication/src/lightssl_message_channel.cpp:42-54 | an empty message is nothing; any other goes out as one frame, as far as its calls were granted bytes; complete exactly if there is no error, and an error exactly if a call failed or 20 s passed |
| `LightSsl.LightSSLMessageChannel.Receive` | communication/src/lightssl_message_channel.cpp:56-91 | the header is what the first call is granted; then nothing, a dropped lone byte, a refused length with its header gone, or the message and the vector that the specification takes from the stream; an error of the body exactly if a call failed or 20 s passed |
| `LightSsl.TakesFrameIff` | communication/src/lightssl_message_channel.cpp:56-80 | a receiver takes a frame, message and vector, exactly if the padded length is within its room |
| `LightSsl.Lockstep` | communication/src/lightssl_message_channel.cpp:42-91 | for every sequence of messages whose padded lengths fit: the receiver takes exactly that sequence and ends with the vector of the sender, so after every frame |
| `LightSsl.StreamGrows` | communication/src/lightssl_message_channel.cpp:42-54 | sending one message after a stream adds exactly its frame under the vector reached so far |
| `LightSsl.LightSSLMessageChannel.SendAll` | communication/src/lightssl_message_channel.cpp:42-54 | a list of messages sent one after the other: all of their stream goes out and the vector is the one after it, or one transfer gave up, and the messages before it and what its calls were granted of its frame went out |
| `LightSsl.LightSSLMessageChannel.ReceiveAll` | communication/src/lightssl_message_channel.cpp:56-91 | `k` calls of receive on the stream of a peer in step give exactly its messages and end with its vector, or stop behind a prefix of them, because the last call was granted less than a header or the transfer of a body gave up |
| `LightSsl.LongestMessage` | communication/src/protocol_defs.h:85-91 | for every buffer size on both sides: every message that fits can be framed in place, and is taken exactly if its padded length fits the window, which is if it is shorter than the window rounded down to whole blocks |
| `LightSsl.WrappingKeepsTheOther` | communication/src/lightssl_message_channel.cpp:130-142 | wrapping a response within the promised room changes nothing of the original or its frame, and the other way round |
| `BufferFrames.Window.SetLength` | communication/src/message_channel.h:74-74 | a length beyond the capacity is ignored |
| `BufferFrames.Window.TrimCapacity` | communication/src/message_channel.h:43-48 | the capacity becomes the length; the difference is returned |
| `BufferFrames.Window.Splinter` | communication/src/message_channel.h:52-61 | refused exactly without room for size and offset; the target begins behind this message and the offset, with a capacity that does not deduct the offset |
| `BufferFrames.BufferMessageChannel.Create` | communication/src/buffer_message_channel.h:42-52 | the window between prefix and suffix, refused exactly for a larger minimum |
| `BufferFrames.BufferMessageChannel.Response` | communication/src/buffer_message_channel.h:57-60 | if accepted, every framed response up to the required length lies inside the buffer, behind the original and its frame |
| `BufferFrames.FramesApart` | communication/src/message_channel.h:52-61 | for every buffer size and message length |
| `BufferFrames.FramesAreTight` | communication/src/message_channel.h:52-61 | both bounds are met exactly for whole blocks |
| `BufferFrames.ResponseFitsIff` | communication/src/message_channel.h:58-59 | of the lengths the overstated capacity lets pass, exactly which still fit |
| `RateLimit.Publisher.IsRateLimited` | communication/src/publisher.h:50-88 | a user event is written to the ring and measured against its oldest tick, limited or not; a system event counts towards its period up to 255, a new period starts at one; neither touches the other |
| `RateLimit.UserAcceptedIff` | communication/src/publisher.h:70-86 | a user event is accepted exactly if the fourth last one before it, accepted or not, is a second ago on the wrapped clock |
| `RateLimit.FiveAcceptedTakeASecond` | communication/src/publisher.h:70-86 | over all runs five accepted user events never lie within a second, across clock wraps |
| `RateLimit.AtMost255PerPeriod` | communication/src/publisher.h:52-69 | over all runs at most 255 system events are accepted in any aligned period of 65536 ms |
| `RateLimit.TwiceAtEveryBorder` | communication/src/publisher.h:52-69 | across every border of two periods 510 can pass within two milliseconds |
| `RateLimit.WindowIsLimitedIff` | communication/src/publisher.h:52-69 | for every window of time: every run has at most 255 system events accepted in it exactly if it lies inside one period |

## Left out

- mbedTLS, DTLS, the handshake, key generation and session persistence: only an abstract invertible block
  cipher is kept.
- Sockets, logging, LEDs, the HAL, dynalib tables, describe messages, variables, functions, ping and time
  synchronisation.
- `g_unacknowledgedMessageCounter`, `NSTART` and `notify_delivered_ok`: a diagnostic count, a limit that is
  not enforced, and a notification that nothing sends.
- Delivery handlers and event handlers that call back into the store, the table or the channel.
- Stored messages of more than 1500 bytes, whose contents `set_data` would not copy.
- A clock that stands still in `send_synchronous`, `blocking_send` or `blocking_receive`: each reading is
  later than the one before, by less than 2^30 ms.
- A lone header byte in `Lockstep`: `Receive` says that it is dropped; the lockstep is about streams whose
  header reads yield no byte or two.
- Malformed packets: chunk messages without a payload marker, options that leave the message.
- `LightSsl.LightSSLMessageChannel.Receive`: requires that a frame that fits has a length above 0 that is a
  multiple of 16; the code hands any other to the cipher, whose answer is not part of this model.
- The overlap of the chunk bitmap with the tail of the channel buffer, and UpdateBegin messages whose file
  length or chunk offsets overflow 32 bits.
- `OtaTransfer.ChunkedTransfer.HandleChunk`: requires that an accepted index has a bit in the bitmap, since
  the code writes the bit without a check.
- `SparkFlight.SparkTransfer.HandleChunk`: requires the same.
- `OtaTransfer.ChunkedTransfer.HandleUpdateDone`: requires a bitmap for as many chunks as are searched, which
  may fail after a rejected UpdateBegin. What the code then reads behind the bitmap is a parameter of the
  runs in `OtaRejected` and `OtaRejections`, on the specification of the method.
- `SparkFlight.SparkTransfer.HandleUpdateDone`: requires the same. Like the other handlers of `SparkTransfer`
  it uses the bitmap and the request loop of `ChunkedTransfer`, where the repository has the same code twice.
- `OtaTransfer.Host.PrepareForFirmwareUpdate`: the callback belongs to the system, and its answer is a
  parameter; that it sets the address of a firmware file, fills in a missing chunk size and erases flash
  (system_update.cpp:214-262) is not modelled, and the results hold whatever it answers.
- `OtaSafety.SuccessMeansWholeFile`: assumes that a chunk that passes its checksum comes under its own index.
  The checksum covers the chunk only (chunked_transfer.cpp:178), so an intact chunk under a damaged index is
  taken, saved and flagged in the wrong place. `SparkFlight.SparkSuccessMeansWholeFile` and the results of
  `OtaRejected` and `OtaRejections` assume the same; any other damage is covered.
- `OtaRegular.RegularSuccessIsTrueIff`: assumes that accepted chunks come in order, since a regular chunk
  carries no index.
- The result codes and validation texts of `finish_firmware_update`, and the contents of UpdateReady and
  UpdateDone messages.
- The factor 0.2 of the resend count is integer division by five, which is what truncating the product gives
  for every 16-bit count.
- `OtaDialogue.RepeatingDelivers`: assumes that what the receiver sends gets out. If an answer is lost after the
  chunk was saved, the sender repeats a chunk that the code takes for the next one.
- nanopb callback, extension and pointer fields, and wrap-around of `size_t`.
- `PbLayout.FieldIsMember`: for the descriptors of static fields, which are those the encoder model covers.
- `PbParse.RoundTrip`: for outputs below 2^64 bytes, the range of the length prefix.
- `EventCodec.ParseEvent`: takes `memmove` and the copies of handler records as single steps.
- `Subscriptions.Table.Dispatch`: calling a handler directly, with or without its data, and calling it through
  `call_event_handler` are one effect.
- Null handlers and filters of 64 bytes or more, which the callers do not pass.
- The acknowledgement `handle_event` builds behind the event in the same buffer, and malformed events that
  are read from there.
- The rate limits are static variables, shared by all publishers; here they belong to one.
- `send_subscription` and the checksum of subscriptions.
- The 16-bit live counter is the low 16 bits of an unbounded one (`CoapDelivery.MessageCountIsExact`).

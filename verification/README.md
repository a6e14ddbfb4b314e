# Enterprise Diode, verified in Dafny

Enterprise Diode sends files over a one-way link. A client cuts a file into frames numbered from 1,
puts a 112-byte header on each, and ends with a frame that carries the file's name in SISL, a small
text format. Nothing ever comes back, and the network may lose, repeat, reorder and interleave frames.
The server sorts frames by session, puts each session's frames in order through a bounded queue, on an
import diode re-keys the XOR-wrapped data on the way, and in the end renames the session's file if it
is complete or deletes it if it timed out.

This project models that, from the client's loop to the renamed file, and proves what the system is
for: no reader ever sees anything but a prefix of a sender's file, a renamed file is the whole file,
when exactly a file does arrive, that sessions do not disturb each other, that re-keying and reordering
preserve the meaning of wrapped data, and that the SISL printer and parser undo each other.

`dafny verify dfyconfig.toml` checks everything.

## How it is modelled

Each class of the program that changes its fields is a Dafny class whose methods change the same
fields, and each method's contract ties the new state to the old one through a function or relation on
values. The theorems are about those functions and relations.

| file | models |
|---|---|
| `Common.dfy` | integer widths, results, the kinds of exception |
| `CloakedDagger.dfy`, `StreamingRewrapper.dfy`, `Unwrapper.dfy` | the wrapped-data header, the re-keying, and the wrap/unwrap pair that specifies it |
| `EnterpriseDiodeHeader.dfy`, `Wire.dfy` | the wire header, the MTU arithmetic, receiving |
| `SislTree.dfy`, `Decimal.dfy`, `SislPrinter.dfy`, `SislParser.dfy` | SISL: object trees and their events, integers, the printer, the parser |
| `SislGrammar.dfy`, `SislAcceptance.dfy`, `SislRoundTrip.dfy`, `SislLexical.dfy` | the language the parser accepts as a grammar of its own, the round trip, and how values are spelled and read |
| `SislFilename.dfy` | the name in the end-of-file frame |
| `Client.dfy`, `Chunking.dfy` | the client, and what its frames are |
| `Streams.dfy` | an output stream, as the log of the calls made on it |
| `ReorderPackets.dfy`, `OrderingStreamWriter.dfy`, `SessionManager.dfy`, `Server.dfy` | the server |
| `Transfers.dfy`, `EndToEndSafety.dfy`, `ImportMode.dfy`, `LifeCycle.dfy`, `Timeouts.dfy`, `Isolation.dfy`, `StoredNames.dfy` | what holds in every run |
| `QueueRefinement.dfy`, `DrainChains.dfy`, `DeadQueues.dfy`, `Completion.dfy`, `Delivery.dfy`, `ReorderWindow.dfy`, `ServerDelivery.dfy` | when a transfer completes, and when it never will |
| `Escapes.dfy` | which datagrams stop the server |

Three choices run through the whole model.

- The order of equal frame counts in a `std::priority_queue` is unspecified. The queue is a multiset and
  its top is *any* packet of the least frame count, so one write is a relation (`Reordering.Writes`), not
  a function, and every theorem holds whatever the order of ties.
- An exception leaves the state as the code leaves it, half advanced. `std::runtime_error` ends in
  `Server::receivePacket`; every other exception (an empty payload in import mode, `std::stoul` on a bad
  number) escapes, ends the receive loop, and with it the run: `Sessions.Run` is any sequence of
  datagrams with clock readings of which at most the last lets an exception escape, and
  `Sessions.QuietRun` one of which none does.
- The network of the safety theorems is: every arrival is some datagram of some client. Loss,
  repetition, reordering and interleaving are then all there is. The theorems on delivery and isolation
  allow any other datagrams besides, up to one that stops the server.

## Results

- **Safety** (`EndToEndSafety.FileSafety`): in every state of every run over honest clients' datagrams, on
  either diode, every live stream holds a prefix of its sender's file, every renamed one the whole file
  under the name it is to get, and every other closed stream held a prefix and was deleted.
- **Delivery** (`ServerDelivery.FileDelivered`): datagrams of a client arrive in time, with losses, repeats and
  reordering, among any other traffic, on a server that nothing has stopped. The file is saved exactly at
  the arrival of the last missing one, if and only if the diode lets its chunks pass, no data frame
  arrived twice and the queue was never full. `ReorderWindow` turns that into the window a network must
  respect: no datagram overtakes an earlier one by `maxQueueLength` or more; and it is tight.
- **What stops the server** (`Escapes`): the exact condition, told from the queued packets, and one datagram
  that stops any server without a session of that id, whatever its other sessions are doing.
- **Refinement** (`QueueRefinement`): the queue is a set of accepted frames of which the longest run from 1
  has been written; it completes exactly when the frame after the run is an accepted end of file.
- **Dead queues** (`DeadQueues`, `Completion`): which states no packet at all can complete, and which no
  further frames of the same transfer can; a frame that threw stays failed.
- **Import mode** (`ImportMode`): through any reordering, what is written unwraps to the frames' plaintexts in
  order. The code refuses the second frame exactly when the first key is all zeros.
- **Isolation** (`Isolation`): what a run does to some sessions is a run on their arrivals alone, and any
  two runs, on the arrivals of some sessions and of all others, are together a run.
- **Life cycle** (`LifeCycle`): every stream created is live, or named and renamed, or deleted, once.
- **Time-outs** (`Timeouts`): a session is given up exactly when a packet of its own comes more than the time-out
  after its previous one.
- **SISL**: the parser, with its ordered choice, greedy names and actions that are never taken back, accepts
  exactly the texts of a plain grammar and makes of each what the grammar says it means
  (`SislAcceptance.ParsesIff`). Parsing what was printed gives the same events if and only if the keys and
  strings are clean (`SislRoundTrip.PrintParseIff`).
- **File names** (`SislFilename.FilenameSurvivesIff`): the documentation and the client allow 65 characters, but
  the server uses 65 as the limit on the whole SISL text, so exactly the names of up to 50 characters
  arrive and the others become `rejected.`. The model follows the code. Whatever arrives, no file is ever
  stored under anything but `rejected.` or a name of letters, digits, `.`, `-` and `_`
  (`StoredNames.NamesAreStorable`), and `SislFilename.ExtractedIff` says which bytes give which name.

## Model

| member | source | states |
|---|---|---|
| EndToEndSafety.FileSafety | src/server/ReorderPackets.cpp:39-69 | End-to-end safety: in every state of every run on either diode, with any clock, queue length and payload sizes, under loss, repetition, reordering and interleaving of honest clients' datagrams, a live stream holds a prefix of its sender's file, a renamed stream exactly the whole file with its name (`rejected.` for one over 50 characters) set just before, and any other closed stream a prefix and was deleted |
| EndToEndSafety.RunSafe | src/server/SessionManager.cpp:26-75 | The inductive invariant behind it, for both diodes: live queues hold only genuine frames and their stream the output of frames 1 to nextFrameCount - 1; closed streams were whole and renamed, or cut short and deleted |
| EndToEndSafety.StepSafe | src/server/Server.cpp:25-35 | One arrival keeps that invariant, also when the session's write throws, caught or not |
| Transfers.DrainKeepsSafe | src/server/ReorderPackets.cpp:53-69 | However the drain loop resolves ties and however it ends, the queue stays safe, and true is returned only with every data frame written and the name set |
| Transfers.BasicEmitsPayloads | src/server/ReorderPackets.cpp:80-83 | The basic diode's output is the frames' payloads in order |
| Transfers.PlainEmits | src/rewrapper/StreamingRewrapper.cpp:10-17 | Unwrapped frames are written as they are, all of them if and only if the diode is a basic one or each payload starts with a brace or a B |
| Chunking.ClientEmits | src/rewrapper/StreamingRewrapper.cpp:10-17 | A client's data frames come out as the file's bytes, all of them if and only if the diode is a basic one or each chunk of the file starts with a brace or a B |
| ServerDelivery.FileDelivered | src/server/SessionManager.cpp:56-70 | End-to-end delivery, either diode: datagrams of a client arrive in time, in any order, with losses and repeats, among any other traffic, in a run that nothing stopped earlier; the arrival that brings the last missing one saves the file, whole and under the name it is to get, if and only if the diode lets the file's chunks pass, no data frame arrived twice and the queue was never full; until then and in every other case its stream is live and nothing of the session was closed |
| ServerDelivery.WindowedFileDelivered | src/server/ReorderPackets.cpp:41-50 | If each datagram arrives once and none overtakes an earlier one by maxQueueLength or more, a file that the diode lets pass is saved at the last arrival |
| ServerDelivery.SessionDelivered | src/server/SessionManager.cpp:26-70 | The same for any numbered transfer on either diode, with "no frame of the transfer throws when its turn comes" in place of the diode letting the chunks pass, in a run that nothing stopped earlier |
| ServerDelivery.WrappedDelivered | src/rewrapper/StreamingRewrapper.cpp:8-28 | The same for data frames wrapped on the way, each under its own key: saved if and only if, besides, there is at most one of them or the first key is not all zeros, and what was saved unwraps to the plaintext |
| ServerDelivery.WireDelivered | src/diodeheader/EnterpriseDiodeHeader.cpp:13-25 | The same from the bytes on the wire: little-endian id and count, flag, 55 bytes of anything, the 48-byte encapsulation header and the payload, whoever made them |
| ServerDelivery.SenderAcceptableIff | src/rewrapper/StreamingRewrapper.cpp:10-17 | No frame of a client's transfer throws if and only if the diode lets each chunk pass |
| ServerDelivery.FollowQueue | src/server/OrderingStreamWriter.cpp:19-23 | Whatever packets a session gets, as long as no gap exceeds the time-out and no write completed, the session of the manager is one reorder queue fed those packets |
| ServerDelivery.HonestNeverThrows | src/server/Server.cpp:27-34 | No datagram of honest clients whose chunks the diode lets pass makes the session manager throw, at any point of any run over such datagrams |
| Escapes.EscapesIff | src/server/Server.cpp:29-34 | In any state, an exception can escape from the handling of a datagram if and only if its session is not given up, nothing stale is in that session's queue with the packet in it, frames from the next count on are each queued once and can be written, and the packet after them is an end of file whose text makes the extraction raise or, on an import diode, an unwrapped frame without data |
| Escapes.DrainEscapesIff | src/server/ReorderPackets.cpp:55-67 | The same for one drain of a queue in any state |
| Escapes.OneDatagramStops | src/server/SISLFilename.cpp:30-49 | An end of file, frame 1, whose text makes the parser throw stops every server that has no session of that id and queues anything at all, whatever its other sessions do: no run goes on after it |
| Escapes.PoisonStops | src/server/Server.cpp:31 | Instance: session 9, frame 1, text `{a: !int ""}` |
| Escapes.NoNumberRaises | src/SislTools/library/BoostSpiritSislParser.cpp:51-69 | A text of the grammar whose first entry is of one of the four integer types and has no digit after white space and an optional sign makes the parser throw an exception that is no runtime_error |
| Delivery.DeliveredIff | src/server/ReorderPackets.cpp:39-69 | Frames of a transfer are written to the queue in any order, some perhaps never and some repeatedly: a write completes, with everything written and the name set, if and only if it is the first after which all frames have arrived, no data frame arrived twice, at no write maxQueueLength frames were waiting for a missing one, and no frame of the transfer throws when its turn comes; in a transfer of the last kind no write throws |
| Delivery.Progress | src/server/ReorderPackets.cpp:53-69 | As long as nothing was repeated or met a full queue every arrival is accepted, exactly the run from frame 1 has been written and the queue holds the rest; from the first repeat or full queue on the queue is lost |
| Delivery.OnceCompletesIff | src/server/ReorderPackets.cpp:41-48 | If every frame arrives exactly once, only the last arrival can complete the transfer, and it does if and only if the queue was never full |
| ReorderWindow.WindowNeverFull | src/server/ReorderPackets.cpp:41-50 | If whenever frame g arrives before an earlier frame f, g - f is less than maxQueueLength, the queue is never full when a frame arrives |
| ReorderWindow.WindowDelivers | src/server/ReorderPackets.cpp:39-69 | Within that window the transfer completes, whole and named, at the last arrival and not before |
| ReorderWindow.WindowIsTight | src/server/ReorderPackets.cpp:41-50 | The window cannot be one wider: frames 2 to maxQueueLength + 1, then frame 1, then the rest, never complete, for every transfer longer than the queue |
| QueueRefinement.QueueRefines | src/server/ReorderPackets.cpp:23-28 | For frames with distinct counts from 1 on and no throwing write: accepted frames are the written and the queued ones, nextFrameCount - 1 is the length of the longest run of accepted data frames from 1, and the output is theirs in order |
| QueueRefinement.CompletesExactly | src/server/ReorderPackets.cpp:55-63 | The first write that returns true is the first after which the end-of-file frame directly after that run has been accepted |
| QueueRefinement.DrainReflects | src/server/ReorderPackets.cpp:53-69 | A drain writes out the run and stops with the frame after it missing, completing, or throwing |
| QueueRefinement.TopIsNext | src/server/ReorderPackets.cpp:55 | The loop condition holds exactly when the frame after the run has been accepted, and then that frame is the only possible top |
| DeadQueues.DeadForever | src/server/ReorderPackets.cpp:41-55 | After a write that returned false and left the queue full, or with a frame below nextFrameCount, no sequence of later writes emits a byte or completes |
| DeadQueues.DeadIff | src/server/ReorderPackets.cpp:41-63 | Between writes that do not throw those are the only dead states: some packet can still complete the queue if and only if it is neither full nor holds such a frame |
| DeadQueues.CompletesNextIff | src/server/ReorderPackets.cpp:41-63 | In any state, also after a write that threw, some packet can make the next write complete if and only if no such frame is queued and the queue has room or already holds all it needs |
| DrainChains.DrainEndsIff | src/server/ReorderPackets.cpp:55-67 | A drain of any queue can complete, or throw a given exception, if and only if nothing stale is queued, data frames from the next count on are each queued once and can be written, and the queued packet after them ends it so |
| Completion.CompletableIff | src/server/ReorderPackets.cpp:39-69 | After any writes of frames of one transfer, throwing ones included, some further frames of it can complete the queue if and only if no frame of the transfer throws when its turn comes, the queue is not full, and no queued data frame has been written already or is queued twice |
| Completion.SoundDrain | src/server/ReorderPackets.cpp:53-69 | A drain of a queue that nothing blocks loses no frame, does not throw, and completes only with every frame of the transfer there |
| Completion.DoomedDrain | src/server/ReorderPackets.cpp:55 | A queue with a data frame twice, or too late, never gets past it |
| Completion.CompletionIsWhole | src/server/ReorderPackets.cpp:57-62 | The first write that completes leaves the whole transfer written and named |
| DeadQueues.FailedForever | src/server/ReorderPackets.cpp:55-66 | With distinct frame counts, after a write that threw neither the counter nor the rewrapper nor the stream changes again and nothing completes |
| ImportMode.ImportModePreservesMeaning | src/server/ReorderPackets.cpp:71-79 | In every run in import mode over separately wrapped frames with any keys and lengths: a live or deleted stream unwraps to the plaintexts of a prefix of the frames, a renamed one to all of them, and no transfer of two or more data frames with an all-zero first key is ever renamed |
| ImportMode.WrappedEmits | src/rewrapper/StreamingRewrapper.cpp:8-28 | Frames written in order come out as one stream under the first frame's header and key, with mask_index the number of body bytes, if and only if there is one frame or the first key is not all zeros; otherwise the second frame throws |
| ImportMode.WrappedAcceptableIff | src/rewrapper/StreamingRewrapper.cpp:50-53 | No frame of a wrapped transfer throws if and only if its name can be stored and there is at most one data frame or the first key is not all zeros |
| ImportMode.MisheadedNeverRenamed | src/rewrapper/StreamingRewrapper.cpp:10-20 | In every run in import mode, a transfer with a data frame that claims to be wrapped but differs in one of the fixed header bytes is never renamed; if its stream is closed it was deleted |
| Rewrapping.RekeyRefinesDecryptEncrypt | src/rewrapper/StreamingRewrapper.cpp:36-62 | Re-keying with the rotated combined mask is decrypting the chunk from offset 0 under its own key, then encrypting under the stored key at the number of body bytes written so far, whatever that number is |
| Rewrapping.SizeWrapHarmless | src/rewrapper/StreamingRewrapper.cpp:42-43 | The wrap-around of the 64-bit mask_index does not disturb the key stream, because 8 divides 2^64 |
| Rewrapping.RefusedIff | src/rewrapper/StreamingRewrapper.cpp:8-28 | In any state and for any frame count, a frame that starts with the identifier byte is refused with a runtime_error if and only if one of the fixed header bytes is wrong or it is not the first and the stored key is all zeros; one that does not, if and only if its payload starts with neither a brace nor a B; an empty one of these throws std::out_of_range |
| Rewrapping.RewrapMeans | src/rewrapper/StreamingRewrapper.cpp:8-46 | What becomes of every other frame: an unwrapped one passes unchanged and leaves the state alone, frame 1 keeps its header and sets key and offset, a later one is decrypted under its own key and encrypted under the stored one at the offset |
| Rewrapping.StreamingRewrapper.Rewrap | src/rewrapper/StreamingRewrapper.cpp:8-28 | One frame in: the output or the exception that RefusedIff and RewrapMeans say, and the new mask and index, an exception changing nothing |
| Rewrapping.StreamingRewrapper.ConstructXORedMask | src/rewrapper/StreamingRewrapper.cpp:48-62 | The loop fills every position of the mask with the stored mask combined with the chunk's, turned to the running offset, or throws while the mask is all zeros |
| Rewrapping.StreamingRewrapper.RewrapData | src/rewrapper/StreamingRewrapper.cpp:36-46 | The loop XORs every byte with the mask at the running offset and advances it by the chunk's length |
| CloakedDagger.ValidHeaderBytes | src/rewrapper/CloakedDagger.cpp:29-41 | The swapped comparisons hold if and only if these bytes stand at these offsets, in network order |
| CloakedDagger.MaskFromHeaderIff | src/rewrapper/CloakedDagger.cpp:10-41 | A header with these bytes yields bytes 20 to 27 as its key, every other one a runtime_error |
| Unwrapping.CreateTestWrappedString | src/rewrapper/UnwrapperTestHelpers.cpp:10-41 | Wrapping gives a header with the key and the payload XORed under it from offset 0 |
| Unwrapping.CloakDaggerUnwrap | src/rewrapper/UnwrapperTestHelpers.cpp:48-63 | Unwrapping checks the header and decrypts the rest from offset 0 under its key, as UnwrappedIff says |
| Unwrapping.UnwrappedIff | src/rewrapper/UnwrapperTestHelpers.cpp:48-63 | A stream with the fixed header bytes unwraps to its rest XORed with its bytes 20 to 27, every other one is refused |
| Unwrapping.WrapUnwrap | src/rewrapper/UnwrapperTestHelpers.cpp:10-63 | Unwrapping undoes wrapping, for every payload and every key |
| Unwrapping.UnwrapEncrypted | src/rewrapper/UnwrapperTestHelpers.cpp:48-63 | Unwrapping a valid header and a body encrypted under its key gives the plaintext |
| Isolation.SessionRuns | src/server/SessionManager.cpp:26-75 | In every run the writes, names, renames and deletions of any set of sessions are those of a run on their packets alone with the same clock readings, whatever the other sessions' packets do, throwing included; it is stopped only if the whole run is stopped by one of their packets |
| Isolation.RunsCombine | src/server/SessionManager.cpp:26-75 | Conversely any run on the arrivals of some sessions and any run on those of all others, neither stopped before the last arrival, are together a run on all arrivals, however interleaved |
| Isolation.ForeignStep | src/server/SessionManager.cpp:26-39 | A packet of another session, completing, timing out or throwing, leaves the sessions' streams, queues and clocks as they are |
| LifeCycle.StreamsAccounted | src/server/SessionManager.cpp:41-75 | In every state of every run, whatever arrives: the streams created are the live, the renamed and the deleted ones, at most one live per session id; live ones have only been written, renamed ones were named once just before, none is both renamed and deleted |
| LifeCycle.NothingUndone | src/server/SessionManager.cpp:26-75 | No step of a run undoes or forgets a call on a live or closed stream |
| LifeCycle.ClosedForGood | src/server/SessionManager.cpp:72-75 | Nothing is called on a stream after its rename or deletion |
| StoredNames.NamesAreStorable | src/server/SISLFilename.cpp:14-51 | In every state of every run with the server's extraction, whatever arrives, the name given to any stream and the one any renamed stream is stored under is `rejected.` or a non-empty name of at most 1000 letters, digits, dots, dashes and underscores that an end of file of at most 65 bytes holds as the text of its first member `name` |
| Timeouts.TimeoutIsExact | src/server/SessionManager.cpp:30-36 | In every run, a packet for a live session makes the server delete that session's stream, losing the packet, if and only if it comes more than the time-out after the session's previous packet |
| Timeouts.ClockShowsLastArrival | src/server/OrderingStreamWriter.cpp:19-23 | In every run the clock of a live session shows the arrival of its last packet, whether that was written, queued, dropped or threw |
| LifeCycle.DrainWrites | src/server/ReorderPackets.cpp:57-62 | A drain only writes, and sets a name exactly when it completes |
| Reordering.ReorderPackets.Write | src/server/ReorderPackets.cpp:23-28 | One write: the new queue, counter, rewrapper and stream, and whether it returns false, true or throws, are a possible outcome of enqueueing and draining |
| Reordering.ReorderPackets.AddFrameToQueue | src/server/ReorderPackets.cpp:39-51 | A full queue drops the frame, any other gains exactly it |
| Reordering.ReorderPackets.CheckQueueAndWrite | src/server/ReorderPackets.cpp:53-69 | The loop ends in a state that some sequence of turns leads to, each on a top with the next frame count, and stops when there is none, at an end of file, or at an exception |
| Reordering.ReorderPackets.ServeTop | src/server/ReorderPackets.cpp:57-66 | One turn: the frame is written, popped and counted, or the name set, the frame popped and true returned, or an exception leaves all as it was |
| Reordering.ReorderPackets.WriteFrame | src/server/ReorderPackets.cpp:71-84 | A data frame is written as it is, or re-keyed first on an import diode |
| Reordering.ReorderPackets.constructor | src/server/ReorderPackets.hpp:38-45 | A new queue is empty and expects frame 1 |
| Reordering.ReorderPackets.Top | src/server/ReorderPackets.hpp:43 | The top is some packet of the least frame count |
| Reordering.DrainTurn | src/server/ReorderPackets.cpp:55-67 | Any drain of a ready queue serves some top with the next count and goes on from there, or ends there |
| Reordering.DrainExists | src/server/ReorderPackets.cpp:53-69 | Every drain has an outcome |
| Ordering.OrderingStreamWriter.Write | src/server/OrderingStreamWriter.cpp:19-23 | The clock is set first, also when the queue then throws, and the queue is written |
| Ordering.OrderingStreamWriter.constructor | src/server/OrderingStreamWriter.cpp:6-17 | A new writer has an initial queue on its stream and the creation time as its clock |
| Sessions.SessionManager.WriteToStream | src/server/SessionManager.cpp:26-39 | A new id opens a stream; an expired one is deleted and erased and its packet lost; otherwise the packet is written and the stream renamed and erased if it completed; other sessions' objects are untouched |
| Sessions.SessionManager.WriteFileAndSaveIfComplete | src/server/SessionManager.cpp:61-70 | The session's writer gets the packet; on true its stream is renamed and the session erased; an exception leaves the session live |
| Sessions.SessionManager.CreateSessionIfNewId | src/server/SessionManager.cpp:41-54 | A stream and a writer are created for an id without one, and nothing else changes |
| Sessions.SessionManager.IsStreamExpired | src/server/SessionManager.cpp:56-59 | Expiry is strictly more than the time-out since the last update |
| Sessions.SessionManager.CloseSession | src/server/SessionManager.cpp:72-75 | The session is erased with its objects, the others stay |
| Serving.Server.ReceivePacket | src/server/Server.cpp:25-35 | A runtime_error from the header or the session is swallowed and the server carries on with the state as it is; any other exception escapes |
| Clients.Client.Send | src/client/Client.cpp:27-47 | A bad name is refused before anything is read or sent; otherwise the whole stream is sent as data frames from the next count on and one end-of-file frame. The counter and the flag are never reset, so a second send goes on counting and stops after one frame that carries the flag |
| Clients.Client.RunTimer | src/client/FreeRunningTimer.cpp:8-11 | The loop terminates, every turn reading something or being the last, and sends exactly the frames of the unread bytes |
| Clients.Client.SendFrame | src/client/Client.cpp:67-71 | One frame is sent, and the loop goes on exactly if the end-of-file flag is not set then |
| Clients.Client.GenerateEDPacket | src/client/Client.cpp:73-88 | The buffers hold the next frame: header with the next count and the flag, and as much as a payload takes, or the end-of-file frame |
| Clients.Client.IncrementFrameCount | src/client/Client.cpp:90-93 | The in-place increment changes the frame count field and no other |
| Clients.Client.SetEOF | src/client/Client.cpp:95-98 | The store sets the end-of-file flag and no other field |
| Clients.Client.SetSessionID | src/client/Client.cpp:109-113 | The store sets the session id field and no other |
| Chunking.ClientFrames | src/client/Client.cpp:67-107 | The server parses a client's datagrams as data frames numbered from 1 whose payloads concatenate to the file, then exactly one end-of-file frame with the next number |
| Chunking.DataFrameCountIsCeiling | src/client/Client.cpp:76-87 | There are ceil(length / payload size) data frames |
| Chunking.DataFrameSlice | src/client/Client.cpp:73-88 | Data frame i carries the bytes of the file from i times the payload size on; all are full but possibly the last, and none is empty |
| Wire.ClientDatagramsReceived | src/server/UdpServer.cpp:30-60 | From MTU 576 on, with the payload and buffer sizes both sides compute from it, every client datagram fits the server's buffers, has a payload, and reaches the packet handler unchanged |
| Wire.ReceivedIff | src/server/UdpServer.cpp:30-60 | Exactly the datagrams longer than 112 bytes are passed on, cut to the buffer, if the buffer has room for a payload |
| EnterpriseDiode.MaxBufferSizeForMtu | src/diodeheader/EnterpriseDiodeHeader.cpp:29-37 | The casts through signed and unsigned 16 bits cancel: every MTU from 576 to 65535 gives mtu - 28 (IPv4 and UDP headers), smaller ones throw |
| EnterpriseDiode.PayloadSizeForMtu | src/client/ClientWrapper.cpp:59-63 | Likewise the payload size is mtu - 140, the 112-byte header off as well, also where the short is negative |
| EnterpriseDiode.HeaderRoundTrip | src/diodeheader/EnterpriseDiodeHeader.cpp:13-25 | Reading a client's little-endian header returns the session id, frame count and end-of-file flag that were sent, and no encapsulation header |
| EnterpriseDiode.AnyHeaderRead | src/server/Parsing.hpp:13-26 | Any header at all is read as little-endian id, little-endian count, a flag byte, 55 ignored bytes and the 48 bytes of the encapsulation header |
| EnterpriseDiode.ShortHeaderRefused | src/diodeheader/EnterpriseDiodeHeader.cpp:13-25 | A header is refused if and only if it has fewer than 112 bytes |
| SislRoundTrip.PrintParseIff | src/SislTools/library/BoostSpiritSislParser.cpp:98-108 | For every object tree without doubles, of arbitrary nesting, parsing the printed text emits exactly the original events if and only if keys are non-empty, without colon, comma or NUL and without leading white space, and strings are without quote or NUL |
| SislRoundTrip.ParseRenderedIff | src/SislTools/library/BoostSpiritSislParser.cpp:98-129 | The same for the rendered text: the greedy name rule is tried at every closing brace and no action of an abandoned branch fires |
| SislAcceptance.ParsesIff | src/SislTools/library/BoostSpiritSislParser.cpp:98-129 | For every input and every list of events: parsing succeeds with these events if and only if the input is a text of the grammar, white space allowed in front of every part and at the end, that means them |
| SislGrammar.DerivedParses | src/SislTools/library/BoostSpiritSislParser.cpp:33-129 | Every text of the grammar is parsed to its meaning; the first number in it that is none makes the parser throw instead |
| SislAcceptance.ParsedDerives | src/SislTools/library/BoostSpiritSislParser.cpp:98-129 | Every input that parses is a text of the grammar and means the events emitted, so no event of an abandoned branch stays |
| SislAcceptance.RaiseHasCause | src/SislTools/library/BoostSpiritSislParser.cpp:51-69 | The parser throws something other than a runtime_error only where it has come to a quoted text that is no number of the type in front of it |
| SislGrammar.ObjectParsed | src/SislTools/library/BoostSpiritSislParser.cpp:106-108 | In front of any text the grammar can have after it, the parser consumes exactly an object of the grammar and emits its meaning, whatever the white space before it |
| SislGrammar.BraceIsNoName | src/SislTools/library/BoostSpiritSislParser.cpp:98 | The name rule fails at a closing brace, with white space in front of it or not, without a key event |
| SislRoundTrip.LayoutParses | src/SislTools/library/BoostSpiritSislParser.cpp:98-129 | A clean tree's text with any white space before its braces, keys, types, values and commas and at its end parses to exactly the tree's events |
| SislRoundTrip.ParsedIsClean | src/SislTools/library/BoostSpiritSislParser.cpp:98-108 | Whatever the input, the parser only emits clean strings and clean keys, except for an empty key where the input has a NUL |
| SislPrinter.PrinterRenders | src/SislTools/library/RapidJsonSislConverter.cpp:20-38 | The printer that overwrites its trailing commas produces the recursive comma-joined rendering for every tree, with the put position at the end and nesting_depth back at 0 |
| SislPrinter.FedMembers | src/SislTools/library/RapidJsonSislConverter.cpp:20-29 | After the members of an object the text is their rendering, ending in a comma if there are any |
| SislPrinter.ClosedObject | src/SislTools/library/RapidJsonSislConverter.cpp:30-37 | EndObject overwrites exactly the comma after the last member, or nothing in an empty object |
| SislPrinter.FailsForArraysOnly | src/SislTools/library/RapidJsonSislConverter.cpp:20-51 | Printing fails, with a runtime_error, if and only if there is an array somewhere in the document |
| SislLexical.PrintedIsSpelled | src/SislTools/library/RapidJsonSislConverter.cpp:20-38 | The printed text is a spelling of the tree: the literals true and false, nothing for null, integers as an optional minus and digits without leading zeros that have the integer's value, strings up to a NUL, each under its literal type name, with one comma between members |
| SislLexical.ValueIsSpelled | src/SislTools/library/RapidJsonSislConverter.cpp:20-29 | One call of a value handler adds such a spelling and a comma, in any state with the put position at the end |
| SislPrinter.MyHandler.EndObject | src/SislTools/library/RapidJsonSislConverter.cpp:30-38 | The new text, put position and depth after seeking back, writing the brace and perhaps a comma |
| SislPrinter.MyHandler.Handle | src/SislTools/library/RapidJsonSislConverter.cpp:20-40 | Each event's handler appends its text, which ValueIsSpelled and FedMembers say, at the put position; an array is refused |
| SislPrinter.PrintSisl | src/SislTools/library/RapidJsonSislConverter.cpp:43-51 | Feeding a reader's events to a new handler gives the text of PrinterRenders and PrintedIsSpelled, or throws where FailsForArraysOnly says |
| Decimal.IntegersSurvive | src/SislTools/library/BoostSpiritSislParser.cpp:51-69 | Every int32, uint32, int64 and uint64 printed in decimal is read back by the unsigned parse and the narrowing cast, negative ones by way of 2^64 - k |
| SislLexical.NumberRead | src/SislTools/library/BoostSpiritSislParser.cpp:51-69 | White space, a sign or none and digits are read as their value if it is below 2^64, a minus taking it from 2^64, whatever follows; larger ones throw std::out_of_range |
| SislLexical.NoNumberRead | src/SislTools/library/BoostSpiritSislParser.cpp:51-69 | Without a digit there the read throws std::invalid_argument |
| SislLexical.DoubleReadIff | src/SislTools/library/BoostSpiritSislParser.cpp:71-74 | Exactly the texts that start, after white space and a sign, with a digit, a point and a digit, inf or nan are taken for doubles |
| SislLexical.CastsWrap | src/SislTools/library/BoostSpiritSislParser.cpp:51-69 | The narrowing casts keep the value modulo 2^32 or 2^64 |
| SislFilename.FilenameSurvivesIff | src/server/SISLFilename.cpp:14-51 | A name the client accepts is extracted unchanged from the end-of-file frame if and only if it has at most 50 characters; those of 51 to 65 are rejected |
| SislFilename.ExtractedIff | src/server/SISLFilename.cpp:14-64 | For any bytes, any two limits and any name: the name is extracted if and only if it is a non-empty name of the listed characters within its limit, and the bytes, within theirs, are a text of the grammar whose object's first member `name` has it as its text |
| SislFilename.ExtractedFromObject | src/server/SISLFilename.cpp:16-64 | A text of the grammar within the limit gives the text of its first member `name` if that is such a name, no name if it is not or there is no such member, and an exception if the member is no text |
| SislFilename.RejectedTexts | src/server/SISLFilename.cpp:16-49 | Bytes over the limit, fewer than 2, not starting with a brace or refused by the parser give no name |
| SislFilename.ClientAcceptsIff | src/client/Client.cpp:49-61 | The client accepts exactly the non-empty names of at most 65 of the listed characters |
| SislFilename.ExtractedWithinLimits | src/server/SISLFilename.cpp:16-38 | For any two limits, a well-formed name is extracted from the client's own text of 15 characters more if and only if that and the name itself are within them |
| SislFilename.DocumentOfRendered | src/server/SISLFilename.cpp:53-64 | Parsing rendered SISL and reading the resulting JSON document gives back the object |

## Left out

- One clock reading per packet: `createSessionIfNewId`, `isStreamExpired` and `write` each read the clock; the model gives them the same reading.
- Streams that fail: `FileStream`'s I/O errors, temporary names and collision handling, `DropStream` and `StreamSpy`; a stream is its log of calls.
- Sockets, asio, sleeping timers, `std::signal` and the three main programs: replaced by arbitrary sequences of datagrams and clock readings.
- Exceptions on the client's own side: reading the file and sending never fail.
- Clients.Client.constructor: takes the base name of the file and the session id is given to Send, because path splitting and the random generator are outside the model.
- Chunking.ClientFrames: does not model transfers of 2^32 - 1 frames or more, whose 32-bit counter wraps around.
- ImportMode.ImportModePreservesMeaning: does not cover streams that mix wrapped and unwrapped data frames; single frames of either kind, in any state, are covered by Rewrapping.RefusedIff and Rewrapping.RewrapMeans.
- SislRoundTrip.PrintParseIff: leaves out doubles, which are printed with limited precision and do not round-trip, and asks for fewer than 2^64 levels of nesting, the range of nesting_depth.
- SislParser.Converted: `std::stod` also throws on a double out of range; the model lets it pass, and carries the text of a double instead of its value.
- SislFilename.ExtractFilename: rapidjson's JSON text in between is taken to carry the events faithfully for text it accepts; where a `GetString` on something else would trip its assertion, the model raises.
- `Parsing::extract<bool>`: a flag byte other than 0 or 1 is undefined in C++; the model reads it as true.
- What is left running of a server whose receive loop an exception has ended.
- The constructor's maximum buffer size, `queueAlreadyExceeded`, `lastFrameReceived` and all logging: they influence nothing.
- `calculateTimerPeriod` and `isZero`: floating point that only sets the pace.
- Keys given to the SISL printer are the reader's C strings.

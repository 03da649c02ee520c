# A verified model of srpc's framing, transports, observers, checksum and UDP sessions

The project models four parts of the library and proves what each of them is for.
`dafny verify dfyconfig.toml` checks all of it.

**Framed byte streams.** `Varint` and `Fixint` are the two size codecs, written as the source's
loops and proved against recursive definitions; `SizePolicy` states the contract both satisfy.
`Framing.Parse` says what a byte stream means independently of how it is cut. `MessageDelegate` is
the decoder that buffers whole frames, `StreamDelegate` the one that forwards pieces and counts down
a cursor; both are classes with the source's fields and loops. `WriteQueue` is the step relation of
the partial-write queue, `AsyncStream` and `PointTransport` the two transports that follow it.
`Packer` holds the in-place framers, `Pipeline` joins sender, wire and receiver, `TornFrames` says
what becomes of its messages when writes fail or the transport is closed, `SmallSizes` settles that
for sizes of one byte, and `BinaryProtocol` puts the checksummed protocol on top. Sizes are cut to
the size type where the source converts a `size_t`; both `unpack` loops use a bitwise or
(`Bytes.Or`), and as the bits joined in are still clear it is a sum (`Bytes.OrIsSum`,
`Bytes.OrOfDisjointBits`).

**Observers.** `LinkedList` is the doubly linked list with its node pointers. `ObserverModel` is the
step relation of connects, unsubscribes and a notification round, refined to an ordered set of live
subscriptions. `Observer` is the implementation on two linked lists, each method tied to a step, up
to a whole notification with other threads and callbacks acting between its actions. `Notification`
says what a notification comes to from its arguments alone: which slots run and who is live afterwards.

**CRC-32.** `CrcTable` has the table, `Division` defines the remainder of a
polynomial over the two-element field and the register that computes it, `Serial` reads words as
bits, and `Crc` proves the table loop is the CRC-32 of section 8 of RFC 1952 and what it detects.
`Straddle` decides the changes that lie across a body and the checksum behind it.

**UDP sessions.** `SessionModel` is a session without buffers, `UdpSession` the server's sessions
with recycled buffers and a cache; it keeps to the model because no buffer is ever in two places.
`AcceptorModel` is the acceptor as a run of operations on endpoints: sessions do not meet, and each
is a run of its own endpoint's datagrams.

Where the code does less than its obvious reading, the members say exactly when it holds:

- a varint framer reserves no byte for the size 0 but writes one, so `Packer.PackedRoundTrip` holds
  exactly for payloads that are nonempty (varint) and fit the size type;
- the forwarding decoder begins a frame of length 0 and never ends it, so
  `StreamDelegate.DecodersAgree` holds exactly when no frame is empty; `StreamDelegate.EmptyFrame`
  is an input on which the two decoders differ;
- after a write error the queue goes on with the next message, so a torn frame takes its missing
  bytes from what follows. In every reachable state, closed with messages waiting or not, errors and
  closing lose whole messages only, as long as no byte follows a torn message
  (`TornFrames.ErrorsLoseWholeMessages`). That condition is exact for the wire with either size policy
  (`TornFrames.WireOfRun`), and for the receiver with fixed-width sizes (`TornFrames.DrainedIffQuiet`)
  and with varint sizes of one byte (`SmallSizes.DrainedIffQuiet`). `TornFrames.TornRun` is a run where
  the receiver is handed what was never sent; `TornFrames.UnnoticedTear` is one where a receiver of
  longer varint sizes does not notice, so the converse stops there;
- a closed transport starts no write, so what waits behind the message in flight is never written:
  the queue can still be emptied exactly if the transport is open or all that is left is a message
  that needs no further write (`WriteQueue.CanEmptyIff`, `Pipeline.CanDrain`, `Pipeline.CanArrive`);
- a message's callback is told the length of its last piece, which is how much of the message was
  written exactly when nothing had gone before that piece (`WriteQueue.FinishReports`,
  `WriteQueue.ReportedInFull`; `WriteQueue.TwoPieceRun` is a run in which it is not);
- a block stores its checksum most significant byte first, against the order of its bits, so one
  change within four consecutive bytes of a block goes unnoticed, and only that one, across the last
  two bytes of the body and the first two of the checksum (`Straddle.BlockOpensIff`,
  `Straddle.SlipUnnoticed`);
- `list::clear` keeps the old count, so `LinkedList.List.Clear` leaves a sound list exactly if it
  was empty;
- `unsubscribe` takes any id: tombstoning one keeps the invariant exactly if `connect` has given it
  out (`ObserverModel.TombstoneIffIssued`), and otherwise the subscription that gets it is passed
  over (`ObserverModel.UnissuedIdSwallowsNext`). The subscription handles keep that condition: they
  are the only callers and pass the id `connect` gave them, so users of the library cannot break it;
- the read flag of a UDP session is not put down after a direct delivery: it is up exactly if some
  read has found the queue empty (`SessionModel.ReadIffRanDry`), and a datagram is delivered
  without a read of its own exactly if its task finds the flag up (`SessionModel.UnaskedDelivery`,
  `SessionModel.DeliveriesCounted`; in `SessionModel.TwoForOneRead` one read brings two).

## Model

| member | source | states |
|---|---|---|
| Bytes.OrIsSum | include/srpc/common/sizepack/varint.h:101-104 | a bitwise or of a number and one shifted past its bits is their sum |
| Bytes.OrOfDisjointBits | include/srpc/common/sizepack/varint.h:101-104 | in a machine word, the bitwise or with a group shifted past the bits read so far is the sum, both reduced to the word |
| Varint.SizeLength | include/srpc/common/sizepack/varint.h:25-36 | the loop finds the length of the prefix up to the first byte with a clear top bit, or 0 |
| Varint.PackedLength | include/srpc/common/sizepack/varint.h:44-53 | the loop counts the packed form's bytes, and gives 0 for 0 |
| Varint.Pack | include/srpc/common/sizepack/varint.h:55-63 | the string built is the packed form |
| Varint.PackInto | include/srpc/common/sizepack/varint.h:65-70 | the string is replaced by the packed form |
| Varint.Append | include/srpc/common/sizepack/varint.h:72-78 | the packed form is put behind the string |
| Varint.PackAt | include/srpc/common/sizepack/varint.h:80-92 | the packed form overwrites the bytes from the pointer on and nothing else; its length is returned |
| Varint.Unpack | include/srpc/common/sizepack/varint.h:94-106 | the loop of shifts and bitwise ors reads the groups' number reduced to the size type, however long the prefix |
| Varint.DecodeEncode | include/srpc/common/sizepack/varint.h:25-106 | a packed number followed by anything is measured and read back exactly |
| Varint.ProperPrefixIncomplete | include/srpc/common/sizepack/varint.h:25-36 | no proper prefix of a packed number is complete |
| Varint.CompletePrefixStable | include/srpc/common/sizepack/varint.h:25-36 | a complete prefix keeps its length and value whatever follows |
| Varint.EncodeMinimal | include/srpc/common/sizepack/varint.h:44-63 | `k` groups suffice exactly for the numbers below 2^(7k) |
| Fixint.SizeLength | include/srpc/common/sizepack/fixint.h:23-27 | the full width, or 0 if fewer bytes are there |
| Fixint.Pack | include/srpc/common/sizepack/fixint.h:40-48 | the string built is the packed form |
| Fixint.PackInto | include/srpc/common/sizepack/fixint.h:50-58 | the string is replaced by the packed form |
| Fixint.Append | include/srpc/common/sizepack/fixint.h:60-68 | the packed form is put behind the string |
| Fixint.PackAt | include/srpc/common/sizepack/fixint.h:70-78 | the backward loop overwrites exactly the width's bytes with the packed form |
| Fixint.Unpack | include/srpc/common/sizepack/fixint.h:80-90 | the loop of shifts and bitwise ors reads the bytes in base 256, missing ones as zeros at the low end |
| Fixint.NumberEncode | include/srpc/common/sizepack/fixint.h:40-48 | the packed form spells the number in base 256, most significant byte first |
| Fixint.DecodeEncode | include/srpc/common/sizepack/fixint.h:23-90 | a packed number followed by anything is measured and read back exactly |
| SizePolicy.UnpackPack | include/srpc/common/sizepack/varint.h:25-106 | for both codecs and every number of the size type, size and value survive packing, whatever follows |
| SizePolicy.PackedBounds | include/srpc/common/sizepack/varint.h:16-23 | a packed size is between `min_length` and `max_length` bytes long |
| SizePolicy.LongestPacked | include/srpc/common/sizepack/varint.h:16-23 | the largest size takes `max_length` bytes, unless seven divides the bits of a varint's size type |
| SizePolicy.PackedProperPrefix | include/srpc/common/sizepack/fixint.h:23-27 | for both codecs no proper prefix of a packed size shows a size |
| SizePolicy.SizeStable | include/srpc/common/sizepack/varint.h:25-36 | a size that can be read stays as it is when bytes follow |
| SizePolicy.ReservedRoom | include/srpc/common/sizepack/varint.h:44-53 | `packed_length` is the packed form's length if and only if the size is fixed-width or not 0 |
| SizePolicy.PackPrefixFree | include/srpc/common/sizepack/fixint.h:40-48 | two packed sizes one of which begins the other are the same size |
| Framing.ParseIsTheSplit | include/srpc/common/transport/delegates/message.h:41-75 | every way of writing a stream as announced messages and a frameless rest is its parse |
| Framing.ParseSplits | include/srpc/common/transport/delegates/message.h:41-75 | the parse is such a split: no byte is lost, altered or moved |
| Framing.NoFrameLeft | include/srpc/common/transport/delegates/message.h:49-73 | the residue never begins with a whole frame |
| Framing.FrameStable | include/srpc/common/transport/delegates/message.h:61-66 | a frame once recognised stays recognised |
| Framing.ParseAppend | include/srpc/common/transport/delegates/message.h:41-75 | parsing may stop anywhere and go on from the residue |
| Framing.CutFrame | include/srpc/common/transport/delegates/message.h:61-71 | a frame cut short yields nothing and stays whole in the residue |
| Framing.ParsePrefixOfStream | include/srpc/common/transport/delegates/message.h:41-75 | a prefix of a stream of frames yields a prefix of the messages, and a residue that begins the next frame and is shorter than it |
| Framing.ParseStream | include/srpc/common/transport/delegates/message.h:41-75 | a stream of frames yields exactly its messages and no residue |
| Framing.ParsedBelowLimit | include/srpc/common/transport/delegates/message.h:54-66 | no message delivered is longer than the size type can say |
| MessageDelegate.ChunkingIndependence | include/srpc/common/transport/delegates/message.h:41-75 | however the input is cut, messages and residual buffer are those of the parse of the whole |
| MessageDelegate.AnyTwoChunkings | include/srpc/common/transport/delegates/message.h:41-75 | two ways of cutting the same input give the same messages and buffer |
| MessageDelegate.ChunkNeverFails | include/srpc/common/transport/delegates/message.h:30-53 | a chunk of a stream of accepted frames never makes `on_error` called |
| MessageDelegate.WellFormedNeverFails | include/srpc/common/transport/delegates/message.h:30-75 | over any chunking of accepted frames `on_error` is never called |
| MessageDelegate.OnDataFailsOnlyIfOverlong | include/srpc/common/transport/delegates/message.h:30-39 | `on_error` is called exactly if the residue is longer than `max_length` and shows no size |
| MessageDelegate.Decoder.Chck | include/srpc/common/transport/delegates/message.h:30-39 | fails, and calls `on_error`, exactly for a full buffer without a size |
| MessageDelegate.Decoder.Ready | include/srpc/common/transport/delegates/message.h:49-51 | the loop's guard, with the error it may report |
| MessageDelegate.Decoder.Drain | include/srpc/common/transport/delegates/message.h:49-73 | the loop delivers every whole frame of the buffer, keeps the rest and ends |
| MessageDelegate.Decoder.OnData | include/srpc/common/transport/delegates/message.h:41-75 | after each call the messages and buffer are the parse of all bytes ever received, and the callbacks of the call are its messages, an error if the buffer is longer than `max_length` and shows no size, and one request for more |
| StreamDelegate.NewSizeIsNew | include/srpc/common/transport/delegates/stream.h:58-75 | a size that appears with new bytes ends among them, so `used` is in range |
| StreamDelegate.UpdateKeepsTrack | include/srpc/common/transport/delegates/stream.h:36-51 | payload bytes complete the frame in progress or lengthen its received part |
| StreamDelegate.StartKeepsTrack | include/srpc/common/transport/delegates/stream.h:53-93 | buffered and new bytes complete a size and begin its frame, or are kept |
| StreamDelegate.ConsumeKeepsTrack | include/srpc/common/transport/delegates/stream.h:95-107 | after a chunk the decoder and the pieces it passed on agree with the parse of all bytes seen |
| StreamDelegate.RunKeepsTrack | include/srpc/common/transport/delegates/stream.h:95-107 | so they do after any sequence of chunks |
| StreamDelegate.DecodersAgree | include/srpc/common/transport/delegates/stream.h:36-107 | on one input cut two ways, the pieces of this decoder put together are the other's messages if and only if no frame is empty; it never fails |
| StreamDelegate.EmptyFrame | include/srpc/common/transport/delegates/stream.h:53-93 | an empty frame the buffering decoder delivers, and this one begins and never ends |
| StreamDelegate.FramesForwarded | include/srpc/common/transport/delegates/stream.h:36-107 | nonempty frames however cut come out whole, in order, each begun and ended once |
| StreamDelegate.BeginsAccepted | include/srpc/common/transport/delegates/stream.h:70-87 | on any input, from any state, a frame is begun only if its length is accepted |
| StreamDelegate.ChunkRefused | include/srpc/common/transport/delegates/stream.h:53-93 | a chunk at a frame's start makes no call and changes nothing if and only if the size it completes is refused; the error is its only call and nothing changes if and only if there is no size where one must be |
| StreamDelegate.FramesThenRest | include/srpc/common/transport/delegates/stream.h:95-107 | whole frames at the front of a chunk are forwarded and what follows is treated as a chunk of its own |
| StreamDelegate.RefusedAfterFrames | include/srpc/common/transport/delegates/stream.h:70-73 | so a refused length within a chunk ends it: the frames before are forwarded, the rest is dropped |
| StreamDelegate.Forwarder.UpdateCursor | include/srpc/common/transport/delegates/stream.h:36-51 | cursor, callbacks and unread bytes after a piece of payload |
| StreamDelegate.Forwarder.StartNewStream | include/srpc/common/transport/delegates/stream.h:53-93 | prefix buffer, cursor, callbacks and unread bytes after each of its four outcomes |
| StreamDelegate.Forwarder.Turn | include/srpc/common/transport/delegates/stream.h:98-105 | one turn of the loop, which leaves fewer bytes unread |
| StreamDelegate.Forwarder.OnData | include/srpc/common/transport/delegates/stream.h:95-107 | the calls and state of the whole chunk, kept in step with the parse of everything received; a refused or hopeless size leaves the state as it was |
| StreamDelegate.Forwarder.constructor | include/srpc/common/transport/delegates/stream.h:25-27 | a new decoder has received nothing and made no calls |
| WriteQueue.ApplyKeepsInv | include/srpc/common/transport/async/stream.h:138-216 | every step keeps: the wire is the finished messages (whole, or cut where an error cut them) and the head's progress; one write in flight at most, and while open exactly when the queue is nonempty; one callback per message in order |
| WriteQueue.ExecKeepsInv | include/srpc/common/transport/async/stream.h:138-216 | so every run keeps it |
| WriteQueue.ApplyKeepsReports | include/srpc/common/transport/async/stream.h:160-205 | every step keeps: each callback was told the length of its message's last piece, the pieces making up what was written of it |
| WriteQueue.ExecKeepsReports | include/srpc/common/transport/async/stream.h:160-205 | so every run keeps it |
| WriteQueue.FinishReports | include/srpc/common/transport/async/stream.h:176-190 | a handler that finishes a message tells its callback all that was written if and only if the write had begun at the message's first byte |
| WriteQueue.ReportedInFull | include/srpc/common/transport/async/stream.h:160-205 | over every run a callback is told all that was written of its message if and only if that went out in the last piece |
| WriteQueue.TwoPieceRun | include/srpc/common/transport/async/stream.h:160-205 | a message written in two pieces without error, whose callback is told the second piece's length only |
| WriteQueue.WireOfErrorFreeRun | tst/async-reader.hpp:165-238 | without errors the wire is always a prefix of the posted messages, each transformed exactly once, and all of them when the queue is empty |
| WriteQueue.OpenIsBusyOrEmpty | include/srpc/common/transport/async/stream.h:207-216 | in every reachable state an open transport has a write in flight exactly when messages wait |
| WriteQueue.Emptied | include/srpc/common/transport/async/stream.h:160-205 | error-free steps of socket and handlers empty the queue of an open transport, or of a closed one whose last message needs no further write |
| WriteQueue.StuckForGood | include/srpc/common/transport/async/stream.h:144-158 | otherwise the queue stays nonempty whatever happens |
| WriteQueue.CanEmptyIff | include/srpc/common/transport/async/stream.h:144-158 | the queue can be emptied if and only if the transport is open or all that is left is such a message |
| WriteQueue.ClosedStep | include/srpc/common/transport/async/stream.h:144-158 | after close a step starts no write and adds at most what was in flight |
| WriteQueue.ClosedStartsNothing | include/srpc/common/transport/async/base.h:34-42 | over every run after close at most the write in flight ends; nothing is started |
| AsyncStream.Stream.constructor | include/srpc/common/transport/async/stream.h:207-216 | an open transport with an empty queue |
| AsyncStream.Stream.AsyncWrite | include/srpc/common/transport/async/stream.h:144-158 | a write is started only while active |
| AsyncStream.Stream.AsyncWriteTop | include/srpc/common/transport/async/stream.h:138-142 | the head message is started from its first byte |
| AsyncStream.Stream.WriteImpl | include/srpc/common/transport/async/stream.h:207-216 | a posted message is queued, and started if none waited |
| AsyncStream.Stream.WireIsPosted | include/srpc/common/transport/async/stream.h:138-216 | without errors the wire is a prefix of the posted messages as they are, and all of them when the queue is empty |
| AsyncStream.Stream.BusyOrEmpty | include/srpc/common/transport/async/stream.h:207-216 | while open a write is in flight exactly when messages wait |
| AsyncStream.Stream.SocketTakes | include/srpc/common/transport/async/stream.h:148-156 | the socket takes a first part of what it was given |
| AsyncStream.Stream.WriteHandler | include/srpc/common/transport/async/stream.h:160-205 | the handler goes on with the unsent rest, or finishes the message; once closed it starts nothing |
| AsyncStream.Stream.GoOnOrFinish | include/srpc/common/transport/async/stream.h:168-188 | without an error, the rest is written from the byte after those taken, or the message is finished |
| AsyncStream.Stream.QueuePop | include/srpc/common/transport/async/stream.h:91-94 | the head leaves the queue and nothing of the next is written yet |
| AsyncStream.Stream.FinishTop | include/srpc/common/transport/async/stream.h:178-203 | the callback is made, `on_write_error` called exactly on an error, the message popped and the next one started |
| AsyncStream.Stream.CloseUnsafe | include/srpc/common/transport/async/base.h:34-42 | the first close, and no other, calls `on_close`, closes the socket and makes the transport inactive |
| PointTransport.Point.AsyncWrite | tst/async-reader.hpp:151-163 | a write is started whether or not the transport is open |
| PointTransport.Point.AsyncWriteTop | tst/async-reader.hpp:146-149 | the head message is transformed if the option was given, and started from its first byte |
| PointTransport.Point.AsyncWriteTransform | tst/async-reader.hpp:165-172 | the head message is replaced by what `on_transform_message` makes of it, once, and started from its first byte |
| PointTransport.Point.AsyncWriteNoTransform | tst/async-reader.hpp:174-178 | the head message is started as it is |
| PointTransport.Point.WriteImpl | tst/async-reader.hpp:229-238 | a posted message is queued behind the others, or transformed as the option says and started if none waited |
| PointTransport.Point.WireIsPosted | tst/async-reader.hpp:165-238 | without errors the wire is a prefix of the posted messages, each transformed once if the option was given and as it is otherwise, and all of them when the queue is empty |
| PointTransport.Point.BusyOrEmpty | tst/async-reader.hpp:151-163 | closed or not, a write is in flight exactly when messages wait |
| PointTransport.Point.WriteHandler | tst/async-reader.hpp:180-227 | the unsent rest goes out untransformed, or the message is finished |
| PointTransport.Point.GoOnOrFinish | tst/async-reader.hpp:188-210 | without an error, the rest is written untransformed, or the message is finished |
| PointTransport.Point.QueuePop | tst/async-reader.hpp:134-137 | the head leaves the queue and nothing of the next is written yet |
| PointTransport.Point.SocketTakes | tst/async-reader.hpp:151-163 | the socket takes a first part of what it was given |
| PointTransport.Point.FinishTop | tst/async-reader.hpp:198-225 | the callback is made, `on_write_error` called exactly on an error, the message popped and the next one started |
| PointTransport.Point.CloseImpl | tst/async-reader.hpp:107-113 | the transport stops being active, once |
| Packer.PackedIsFrame | tst/options.h:35-43 | what the framer writes is the size followed by the payload |
| Packer.PackedRoundTrip | tst/options.h:35-43 | a framed payload is read back as itself if and only if it fits the size type and, for a varint, is not empty |
| Packer.PackMessage | tst/options.h:35-43 | inserting room and packing over it makes the framed payload |
| Packer.InsertSizePrefix | include/srpc/common/protocol/binary.h:158-173 | in the headroom, leaving what is ahead and the length alone, or by growing just as much as is missing, the slice returned spells the framed payload, and a sendable one leaves the bytes behind it alone |
| BinaryProtocol.OpenIffSealed | include/srpc/common/protocol/binary.h:115-139 | a block opens to a body if and only if it is that body and its checksum |
| BinaryProtocol.OpensIffSealed | include/srpc/common/protocol/binary.h:115-133 | a block opens if and only if it is some body and that body's checksum |
| BinaryProtocol.ReadyWasSealed | include/srpc/common/protocol/binary.h:115-139 | a body is made ready if and only if it came with its checksum, and every block is made ready or refused |
| BinaryProtocol.CorruptedBodyRefused | include/srpc/common/protocol/binary.h:120-125 | a body changed within four consecutive bytes is refused |
| Straddle.UpdateIsShift | include/srpc/common/hash/crc32.h:86-89 | a table look-up is eight steps of the register with the byte joined in |
| Straddle.WordChange | include/srpc/common/hash/crc32.h:105-131 | how a change of the last bytes changes the checksum depends on the changed bits alone |
| Straddle.BlockOpensIff | include/srpc/common/hash/crc32.h:127-130 | a block that differs from a sealed one only within four consecutive bytes opens if and only if these are the last two of the body and the first two of the checksum, changed by one pattern |
| Straddle.SlipUnnoticed | include/srpc/common/protocol/binary.h:115-139 | every sealed body of two bytes or more has such a neighbour |
| BinaryProtocol.ReadySeals | include/srpc/common/protocol/binary.h:107-140 | sealed bodies are all ready, none refused |
| BinaryProtocol.WireIsStream | include/srpc/common/protocol/binary.h:158-173 | what the framer makes of sealed bodies is the stream of their frames: a block is never empty |
| BinaryProtocol.WireParses | include/srpc/common/protocol/binary.h:107-173 | what the receiver makes of those bytes are the bodies, none refused and nothing left over |
| BinaryProtocol.SealedStreamDelivered | include/srpc/common/protocol/binary.h:107-173 | bodies sealed and framed by the framer, in any chunks, come out as they went in, without errors |
| BinaryProtocol.Binary.BodiesReady | include/srpc/common/protocol/binary.h:107-140 | once the bytes received are those of sealed and framed bodies, exactly the bodies have been made ready and nothing is left in the buffer |
| BinaryProtocol.Binary.OnMessage | include/srpc/common/protocol/binary.h:107-140 | if the block is a body and its checksum exactly that body is made ready and nothing is closed; otherwise nothing is made ready and the transport is closed |
| BinaryProtocol.Binary.OnData | include/srpc/common/protocol/binary.h:107-140 | after each call what is ready or refused is what all bytes received contain |
| BinaryProtocol.Binary.OnReads | include/srpc/common/transport/async/base.h:44-56 | any sequence of reads makes the decoder's calls of that run and receives their bytes |
| BinaryProtocol.Binary.NothingClosed | include/srpc/common/protocol/binary.h:107-140 | if the bytes of sealed and framed bodies came in as those reads, the transport was never closed |
| BinaryProtocol.ReadBodies | include/srpc/common/protocol/binary.h:107-140 | a new connection that reads sealed and framed bodies in any chunks has them all, and stays open |
| Pipeline.ExecHears | include/srpc/common/transport/delegates/message.h:41-75 | in every run, errors and closing included, the receiver's messages and buffer are the parse of the bytes delivered |
| Pipeline.ExecWriter | include/srpc/common/transport/async/stream.h:138-216 | the sender's part of a run is a run of the write queue: deliveries are nothing to it |
| Pipeline.ExecFrames | tst/options.h:35-43 | in every run what was posted are the frames of the messages sent |
| Pipeline.ExecNeverFails | include/srpc/common/transport/delegates/message.h:30-39 | a run whose wire carries acceptable frames never makes the decoder fail |
| Pipeline.EndToEnd | include/srpc/common/transport/async/stream.h:138-216 | in every error-free run the messages received are a prefix of those sent; once the wire is drained exactly those that went out whole, closed or not, with the part of the one being written in the buffer; and all of them if the queue is empty too |
| Pipeline.CanDrain | include/srpc/common/transport/async/stream.h:144-158 | from every reachable state, errors included, error-free steps of socket, handlers and network empty queue and wire if and only if the transport is open or all that is left is a message that needs no further write |
| Pipeline.CanArrive | include/srpc/common/transport/async/stream.h:144-158 | so in an error-free run all that was sent can still arrive, exactly then |
| TornFrames.WireIffTearLast | include/srpc/common/transport/async/stream.h:190-203 | for finished messages, the wire is the stream of those that went out whole and then the torn bytes of one if and only if no byte follows a torn message, and that stream alone if and only if none is torn |
| TornFrames.WireOfRun | include/srpc/common/transport/async/stream.h:190-203 | so in every reachable state, errors and closing included, the message being written counted with what of it is on the wire |
| TornFrames.QuietParse | include/srpc/common/transport/delegates/message.h:41-75 | from such a wire the receiver gets the messages that went out whole, and waits for the rest of the torn one |
| TornFrames.ErrorsLoseWholeMessages | include/srpc/common/transport/async/stream.h:190-203 | in every reachable state in which no byte follows a torn message, what is received is a prefix of the messages that went out whole; once the wire is drained exactly they are, and the receiver waits for the rest of the torn one |
| TornFrames.FixintParseLength | include/srpc/common/sizepack/fixint.h:23-27 | with fixed-width sizes the bytes of messages and residue add up to those received |
| TornFrames.DrainedIffQuiet | include/srpc/common/transport/async/stream.h:190-203 | with fixed-width sizes, in every reachable state with the wire drained the receiver has exactly the messages that went out whole, and the torn bytes of the last, if and only if no byte follows a torn message |
| TornFrames.UnnoticedTear | include/srpc/common/sizepack/varint.h:94-106 | with longer varint sizes the converse fails: a header torn after two of its three bytes joins with the next one, and the bits above the size type are cut off |
| SmallSizes.StillBehind | include/srpc/common/sizepack/varint.h:25-36 | a receiver that is behind by some bytes and reads the right payload all the same is behind by bytes of which one ends a size prefix |
| SmallSizes.NeverCatchesUp | include/srpc/common/sizepack/varint.h:25-36 | once behind, a receiver that gets the right messages is left with more bytes than the torn ones |
| SmallSizes.TearNoticed | include/srpc/common/transport/async/stream.h:190-203 | if it is left with exactly the torn bytes of the last message, no byte followed a torn one |
| SmallSizes.DrainedIffQuiet | include/srpc/common/transport/async/stream.h:190-203 | with varint sizes of one byte, too, in every reachable state with the wire drained the receiver has exactly the messages that went out whole, and the torn bytes of the last, if and only if no byte follows a torn message |
| TornFrames.TornFrameSwallowsNext | include/srpc/common/transport/async/stream.h:190-203 | a torn frame takes its missing bytes from whatever follows it |
| TornFrames.TearRun | include/srpc/common/transport/async/stream.h:160-205 | what a run comes to in which a partial write is followed by a failed one, then by the next message |
| TornFrames.TornRun | include/srpc/common/transport/async/stream.h:160-205 | such a run after which the receiver is handed a message never sent |
| LinkedList.List.constructor | include/srpc/common/details/list.h:154-158 | an empty list |
| LinkedList.List.PushBack | include/srpc/common/details/list.h:258-269 | one new node at the end, both chains sound, the count right |
| LinkedList.List.PushFront | include/srpc/common/details/list.h:271-282 | one new node at the front, both chains sound, the count right |
| LinkedList.List.Cerase | include/srpc/common/details/list.h:130-151 | the node leaves both chains and the rest keeps its order |
| LinkedList.List.Unlink | include/srpc/common/details/list.h:132-146 | the node's neighbours are tied to each other, the ends moved if it was one |
| LinkedList.List.Erase | include/srpc/common/details/list.h:230-239 | the node is erased and the iterator returned is at its successor |
| LinkedList.List.Rerase | include/srpc/common/details/list.h:218-228 | the node is erased and the iterator returned is at its predecessor |
| LinkedList.List.SpliceBack | include/srpc/common/details/list.h:241-256 | all nodes of the other list move behind this one's; splicing a list to itself changes nothing |
| LinkedList.List.Join | include/srpc/common/details/list.h:247-251 | two sound chains tied end to end are one sound chain |
| LinkedList.List.Swap | include/srpc/common/details/list.h:284-297 | the lists exchange nodes and contents |
| LinkedList.List.Clear | include/srpc/common/details/list.h:187-196 | the count is kept, so what is left is a sound list if and only if the list was empty |
| ObserverModel.ApplyKeepsInv | include/srpc/common/observers/base.h:82-185 | every step keeps both lists ascending, one below the other and below the next id, and the tombstones clear of the added |
| ObserverModel.TombstoneIffIssued | include/srpc/common/observers/base.h:82-87 | tombstoning an id keeps the invariant if and only if `connect` has given it out |
| ObserverModel.UnissuedIdSwallowsNext | include/srpc/common/observers/base.h:82-87 | a subscription whose id was tombstoned before it was given out is passed over and erased |
| ObserverModel.ApplyRefines | include/srpc/common/observers/base.h:82-185 | every step changes the live subscriptions as connecting, unsubscribing or expiring does, and otherwise not at all |
| ObserverModel.ExecRefines | include/srpc/common/observers/base.h:298-317 | so over every run the implementation is the ordered set of live subscriptions |
| ObserverModel.ReachableRefines | include/srpc/common/observers/base.h:298-317 | in every reachable state, mid-notification included |
| ObserverModel.CheckRunsTheLive | include/srpc/common/observers/base.h:305-308 | an entry is run exactly if it is live when visited, which is if it was live at the start and has not gone since |
| ObserverModel.ApplyKeepsRound | include/srpc/common/observers/base.h:298-317 | every step keeps the account of a round: run, missed and to come |
| ObserverModel.ExecKeepsAll | include/srpc/common/observers/base.h:298-317 | so every run keeps both invariants |
| ObserverModel.RoundResult | include/srpc/common/observers/base.h:298-317 | a finished round ran, each once and in order, exactly those live at its start and not found removed, and only those gone since were found removed |
| ObserverModel.MinusOne | include/srpc/common/observers/base.h:95-128 | deleting one entry of an ascending list is filtering by its id |
| ObserverModel.MinusMinus | include/srpc/common/observers/base.h:130-149 | filtering by two sets in turn is filtering by their union |
| Notification.OpsLead | include/srpc/common/observers/base.h:82-185 | a sequence of connects and unsubscribes adds what it connects and takes away the issued ids it unsubscribes, and leaves the round alone |
| Notification.TurnLeads | include/srpc/common/observers/base.h:304-315 | a turn runs its entry exactly if it is live and not unsubscribed before it, and takes it away exactly if it ran and has expired |
| Notification.TurnOn | include/srpc/common/observers/base.h:301-315 | so every turn keeps the account of the loop |
| Notification.ClearingLeads | include/srpc/common/observers/base.h:130-149 | merging the tombstones changes nobody's subscription |
| Notification.Finishes | include/srpc/common/observers/base.h:298-317 | so the whole notification is what its arguments say |
| Notification.LiveAfter | include/srpc/common/observers/base.h:309-313 | a slot that ran stays live exactly if it did not say it had expired and was not unsubscribed; any other, and one connected meanwhile, exactly if it was not unsubscribed |
| Observer.RemoveByIndex | include/srpc/common/observers/base.h:95-128 | exactly the given id is deleted, whichever end the search starts from, and nothing if it is not there |
| Observer.RemoveFromFront | include/srpc/common/observers/base.h:108-116 | the forward search and erasure |
| Observer.RemoveFromBack | include/srpc/common/observers/base.h:118-126 | the backward search and erasure |
| Observer.MergeRemoved | include/srpc/common/observers/base.h:138-148 | one pass deletes exactly the tombstoned ids, order preserved |
| Observer.Impl.constructor | include/srpc/common/observers/base.h:179-185 | the initial state, with two empty lists, in which a round may begin |
| Observer.Impl.Connect | include/srpc/common/observers/base.h:179-185 | the step of connecting, on the real lists; all a round relies on is kept |
| Observer.Impl.Unsubscribe | include/srpc/common/observers/base.h:82-87 | any id is tombstoned and deleted from the added entries; for one given out that is the step of unsubscribing, and all a round relies on is kept |
| Observer.Impl.BeginRound | include/srpc/common/observers/base.h:173-177 | the added entries are spliced behind the others |
| Observer.Impl.IsRemoved | include/srpc/common/observers/base.h:89-93 | tells whether the id is tombstoned, and takes it out of the tombstones if it is |
| Observer.Impl.EraseEntry | include/srpc/common/observers/base.h:305-310 | the entry is erased under the round's iterator, which goes on to the next |
| Observer.Impl.PassEntry | include/srpc/common/observers/base.h:311-313 | an entry that has run and not expired is passed over |
| Observer.Impl.SwapRemoved | include/srpc/common/observers/base.h:132-136 | the tombstones are taken out at once and none are left |
| Observer.Impl.ClearRemoved | include/srpc/common/observers/base.h:138-148 | the ids taken out are deleted from the list |
| Observer.Impl.Interfere | include/srpc/common/observers/base.h:82-87 | any connects and unsubscribes between two actions of a round are, in order, the steps of the model that they are, and touch only the added entries and tombstones |
| Observer.Impl.Turn | include/srpc/common/observers/base.h:304-315 | one turn of the loop: the entry runs unless it is tombstoned, others act, and it is erased if it was tombstoned or says it has expired and passed over otherwise |
| Observer.Impl.LoopTurn | include/srpc/common/observers/base.h:304-315 | a turn with others acting before it, which keeps the account of the loop: entries still to visit, run so far and live |
| Observer.Impl.LeaveEntry | include/srpc/common/observers/base.h:305-313 | the entry is erased if found removed or expired, and the iterator goes on to the next |
| Observer.Impl.RunAll | include/srpc/common/observers/base.h:301-315 | the whole loop visits every entry once, runs exactly those live at the start and not unsubscribed before their turn, and erases of these exactly those that say they have expired |
| Observer.Impl.ClearTombstones | include/srpc/common/observers/base.h:130-149 | tombstones are swapped out at once and merged away, others acting in between as the steps that they are |
| Observer.Impl.Notify | include/srpc/common/observers/base.h:298-317 | from the arguments alone: the slots run are, in order, those live at the start and not unsubscribed before their turn; live afterwards are those live before and connected meanwhile, less those unsubscribed and those that ran and said they had expired |
| CrcTable.EntryIsEightSteps | include/srpc/common/hash/crc32.h:12-85 | every table entry is eight steps of bitwise division of its index |
| Division.FeedIsRemainder | include/srpc/common/hash/crc32.h:86-89 | feeding bits to a register leaves the remainder of the polynomial they spell |
| Division.StepInjective | include/srpc/common/hash/crc32.h:86-89 | a division step loses nothing |
| Division.BurstDetected | include/srpc/common/hash/crc32.h:86-89 | two messages that differ only within 32 consecutive bits leave different registers |
| Crc.UpdateIsFeed | include/srpc/common/hash/crc32.h:86-89 | one table look-up is eight steps of division fed with the byte |
| Crc.UpdateAllIsFeed | include/srpc/common/hash/crc32.h:107-111 | so the loop is the division fed with the whole message |
| Crc.Crc32IsRemainder | include/srpc/common/hash/crc32.h:119-131 | the checksum is the complemented remainder of section 8 of RFC 1952 |
| Crc.BurstChangesChecksum | include/srpc/common/hash/crc32.h:105-131 | any change within 32 consecutive bits changes the checksum |
| Crc.FourByteChangeDetected | include/srpc/common/hash/crc32.h:105-131 | any change within four consecutive bytes changes the checksum |
| Crc.SpellInjective | include/srpc/common/hash/crc32.h:127-130 | the four bytes, most significant first, determine the word |
| Crc.Sum | include/srpc/common/hash/crc32.h:107-112 | the loop and the complement compute the checksum |
| Crc.Check | include/srpc/common/hash/crc32.h:105-117 | succeeds exactly for the four checksum bytes |
| Crc.Get | include/srpc/common/hash/crc32.h:119-131 | writes the four checksum bytes and nothing else |
| SessionModel.AcceptedInv | include/srpc/server/acceptor/async/udp.h:221-230 | an accepted session satisfies the invariant, its first datagram queued |
| SessionModel.ApplyKeepsInv | include/srpc/server/acceptor/async/udp.h:94-151 | every step keeps: a pending read means an empty queue, the queue is bounded, what is not dropped keeps its order, and every arrival is delivered, queued, posted or dropped, exactly one of these |
| SessionModel.ExecKeepsInv | include/srpc/server/acceptor/async/udp.h:94-151 | so every run keeps it, and what has been delivered stays delivered |
| SessionModel.DeliveredInOrder | include/srpc/server/acceptor/async/udp.h:94-139 | over every run, deliveries are arrivals, unchanged, in order, none twice |
| SessionModel.DropsOnlyWhenFull | include/srpc/server/acceptor/async/udp.h:123-139 | a datagram is dropped exactly if its task runs with no read pending and the queue full |
| SessionModel.NothingLost | include/srpc/server/acceptor/async/udp.h:94-139 | nothing was dropped if and only if delivered, queued and posted together are all arrivals in order |
| SessionModel.ArrivalsAreSteps | include/srpc/server/acceptor/async/udp.h:146-158 | the arrivals of a run are the datagrams received, behind the first one |
| SessionModel.TasksAreSteps | include/srpc/server/acceptor/async/udp.h:94-151 | over every run the tasks run and then those waiting are those waiting at the start and then what datagrams and read requests post, in order |
| SessionModel.NoReadLost | include/srpc/server/acceptor/async/udp.h:111-116 | so no read request is lost: the read tasks run and waiting are as many as were asked for |
| SessionModel.ReadIsForGood | include/srpc/server/acceptor/async/udp.h:98-106 | once a read has found the queue empty the flag stays up: nothing is queued or dropped any more |
| SessionModel.ReadIffRanDry | include/srpc/server/acceptor/async/udp.h:94-109 | over every run the flag is up if and only if some read task has found the queue empty |
| SessionModel.UnaskedDelivery | include/srpc/server/acceptor/async/udp.h:123-131 | a step delivers without a read task if and only if it runs a datagram task with the flag up |
| SessionModel.DeliveriesCounted | include/srpc/server/acceptor/async/udp.h:94-139 | over every run the deliveries are as many as the read tasks that found something queued and the datagram tasks that found the flag up |
| SessionModel.TwoForOneRead | include/srpc/server/acceptor/async/udp.h:94-139 | a run in which the second of two reads brings two datagrams |
| AcceptorModel.ApplyKeepsInv | include/srpc/server/acceptor/async/udp.h:210-238 | every operation keeps the invariant of every session |
| AcceptorModel.Independent | include/srpc/server/acceptor/async/udp.h:210-238 | over every run, what becomes of an endpoint's session is what would without any other endpoint |
| AcceptorModel.SessionsAreRuns | include/srpc/server/acceptor/async/udp.h:210-268 | over every run, each session's state is that of the run of exactly its own endpoint's datagrams, read requests and tasks, from the datagram that opened it on, with no close since |
| AcceptorModel.SessionIff | include/srpc/server/acceptor/async/udp.h:210-268 | an endpoint has a session if and only if it has sent a datagram when sessions were wanted and has not been closed since |
| AcceptorModel.NoReadLost | include/srpc/server/acceptor/async/udp.h:111-116 | over every run the read tasks a session has run and has waiting are as many as the read requests made of it |
| AcceptorModel.DeliveriesAreDatagrams | include/srpc/server/acceptor/async/udp.h:94-238 | so what it has delivered is its endpoint's datagrams since then, unchanged, in order, none twice, none that was dropped |
| UdpSession.Cache.constructor | include/srpc/common/cache/simple.h:31-33 | an empty cache of a given size |
| UdpSession.Cache.Get | include/srpc/common/cache/simple.h:52-63 | the oldest cached buffer, or a new one |
| UdpSession.Cache.Push | include/srpc/common/cache/simple.h:119-125 | the buffer is kept if there is room |
| UdpSession.Taken | include/srpc/common/cache/simple.h:52-63 | a buffer taken from the cache is in no other place |
| UdpSession.Written | include/srpc/server/acceptor/async/udp.h:153-156 | writing it changes nothing that waits to be delivered |
| UdpSession.PostedOnce | include/srpc/server/acceptor/async/udp.h:146-151 | posting such a buffer puts it in one place and the strand holds what the model says |
| UdpSession.FrontTaken | include/srpc/server/acceptor/async/udp.h:123-127 | the buffer of the task that runs is in no other place and holds the datagram that arrived |
| UdpSession.Recycled | include/srpc/server/acceptor/async/udp.h:100-105 | the queue's first buffer holds its datagram and goes to the cache without being in two places |
| UdpSession.Returned | include/srpc/server/acceptor/async/udp.h:128-136 | the buffer of a task goes to the cache without being in two places |
| UdpSession.Queued | include/srpc/server/acceptor/async/udp.h:132-133 | the buffer of a task goes to the queue without being in two places |
| UdpSession.Client.constructor | include/srpc/server/acceptor/async/udp.h:43-51 | a session accepted with its first datagram queued, its invariant holding |
| UdpSession.Client.Fill | include/srpc/server/acceptor/async/udp.h:153-156 | the datagram is copied to a buffer that is neither cached, queued nor posted |
| UdpSession.Client.PushData | include/srpc/server/acceptor/async/udp.h:146-158 | the arrival of the model: a task with a buffer of its own that holds the datagram, behind all that is posted; the session's invariant is kept |
| UdpSession.Client.Read | include/srpc/server/acceptor/async/udp.h:111-116 | the read request of the model: a read task behind all that is posted; the session's invariant is kept |
| UdpSession.Client.SetReadImpl | include/srpc/server/acceptor/async/udp.h:94-109 | the read task of the model; what the delegate is given are the bytes that arrived, and their buffer goes to the cache if there is room |
| UdpSession.Client.PushDataImpl | include/srpc/server/acceptor/async/udp.h:123-139 | the datagram task of the model; what the delegate is given are the bytes that arrived, and the buffer is queued or goes to the cache if there is room |
| UdpSession.Client.RunFront | include/srpc/server/acceptor/async/udp.h:94-151 | the strand running its first task is the model's step, which keeps the session's invariant |
| UdpSession.Acceptor.constructor | include/srpc/server/acceptor/async/udp.h:306-313 | the initial state of the model |
| UdpSession.Acceptor.OnData | include/srpc/server/acceptor/async/udp.h:210-238 | the model's step: a datagram reaches its endpoint's session, opens one, or is ignored; all other sessions, and every session's invariant, are kept |
| UdpSession.Acceptor.StartAccept | include/srpc/server/acceptor/async/udp.h:354-357 | the model's step: from now on new endpoints get sessions |
| UdpSession.Acceptor.Read | include/srpc/server/acceptor/async/udp.h:111-116 | the model's step: a read request of a session; the others stay |
| UdpSession.Acceptor.RunTask | include/srpc/server/acceptor/async/udp.h:94-139 | the model's step: the first task of a session runs, its delegate given the bytes that arrived; the others stay |
| UdpSession.Acceptor.CloseImpl | include/srpc/server/acceptor/async/udp.h:256-268 | the model's step: the endpoint's session is told once and forgotten, the others stay |

## Left out

- Sockets, asio, io services, TUN/TAP and program options: what a socket or the network does is a step with the amounts it chooses as parameters.
- Strands and mutexes: a handler or a critical section is one atomic step, in first-in-first-out order where a strand gives it.
- Destruction: transports, sessions and slots are never destroyed while in use, so the `weak_ptr` and `shared_ptr` guards always lock; a freed list node is only unlinked.
- `size_t` wide lengths: lengths, counts and ids are unbounded; only sizes put in a prefix are cut to the size type, and signed size types are not modelled.
- Varint.Unpack: a prefix longer than the word shifts by more than its width, which C++ leaves undefined; the model shifts those groups out.
- `pack_size`, `valid_packed` and the other one-line helpers of the codecs: nothing beyond the members above.
- Tag policies other than the default one that packs nothing, `get_next_item`, `insert_prefix` and overridden `unpack_message`/`pack_message` in the binary protocol: the slices they return do not match what is stored, or the user supplies them.
- BinaryProtocol.Binary.OnData: the decoder's callbacks take effect after its `on_data` has returned rather than inside it; their order is the same.
- PointTransport.Point.FinishTop: the message's callback there gets the error only; the byte count in the history is the model's own.
- The order of `on_close` and `on_write_error` among the other callbacks: they are counted; the delegate's and the transport's own are made together and counted as one.
- `clear_unsafe`, `unsubscribe_all` and a notification from inside a callback: not supported by the iterator of the round.
- The list's copy and range constructors and its iterator classes: an iterator is the node it points to.
- LinkedList.List.Clear: the nodes are dropped at once, without the loop that frees them one by one.
- Slots are values: what `exec` does is the operations given to `Observer.Impl.Notify`, and `expired` a function of the entry that is asked once, after it has run.
- CrcTable.GetValue: the table of 256 entries is laid out as rows of eight, found by the bits of the index.
- UdpSession.Acceptor.RunTask: each session's tasks are kept in a queue of its own, so the order of tasks of different sessions, which share nothing, is not modelled; the tasks of a closed session go with it.
- UdpSession.Acceptor.constructor: the source leaves `accept_` unset until `start_accept`; its first value is a parameter.
- Writing through a UDP session, its close notifications and its error callbacks: calls passed on to the transport.
- The other queues, the priority trait, factory, result, timers, zigzag, protobuf wrappers and subscription handles: library semantics or one-branch facts.

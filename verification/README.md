# Proofs about the node: framed byte pipe, shared-Redis ledger, and what they stand on

A Dafny model of the node's core, with proofs. `dafny verify dfyconfig.toml` checks all of it. Two subjects take
most of the room.

**The framed byte pipe.** A message is packed into a 9-byte header and a body (`JsonSender.dfy`), queued on a connection
and pushed through a socket that takes any part of what it is offered (`SockBuffer.dfy`, `Connection.dfy`). On the other
side the bytes arrive in any chunks, wait in a block-allocated buffer (`BlockBuffer.dfy`) and are cut into frames
(`JsonConsumer.dfy`). `Frames.dfy` says what cutting means on plain byte sequences and proves that chunking does not
matter; `Pipe.dfy` runs both ends as one state machine and proves the end-to-end theorem. `EventHandler.dfy` carries the
epoll masks behind the write-interest invariant of `Connection`.

**The shared-Redis ledger.** Several root workers run the transaction handler, the block builder and the initial replay
against one Redis. In `Ledger.dfy` each Redis command is one atomic step and each handler a small program of such
steps; a run is any interleaving. The properties over all runs are in `BuilderLock.dfy` (mutual exclusion, what the
drain of the pool keeps and loses), `Money.dfy` (conservation, the replay happens once), `Overdraft.dfy` and
`OverdraftLimits.dfy` (how far an account can fall, and that it does), and `Overflow.dfy` (when Redis refuses nothing).
`Blocks.dfy` has the sequential side, netting a block and the two walks along the chain, and `Netting.dfy` says exactly
when netting gives every address its net change. `RedisCache.dfy` shows that the pool of sharded servers behaves like one
store, and `LedgerStore.dfy` that every run of the ledger is a sequence of commands on such a pool, each worker going on
as the reply tells it.

`PipeSteps.dfy` shows that the connections' methods make the steps of the pipe, and `Minting.dfy` which submitted
transactions create money.

Beside them: the recursive wire codec (`ByteStream.dfy`, `ByteStreamProofs.dfy`, and the stream classes in
`BinStreams.dfy`), byte order (`Bytes.dfy`), the connection registry (`Registry.dfy`), the timer list (`TimerList.dfy`)
and the white list (`WhiteLst.dfy`, over the bit arithmetic of `Bits.dfy`). `Shifts.dfy` ties the products, quotients and
sums used for shifts, ors and masks back to shifts made one bit at a time and to bitwise or and and. `Sums.dfy`,
`Arithmetic.dfy`, `Int64.dfy` and `Options.dfy` are helpers.

How the model is set up:

- Code that changes state in place is a class with methods; each method is proved against a function on values
  (`Parse`, `Marshal`, `Unmarshal`, `Pack`, `Netted`, `Walk`, `Exec`, `Adds`), and the theorems are about those.
- What the kernel and the allocator answer are parameters: how much a send takes, what a recv holds, whether malloc
  succeeds, whether a connect or a send throws. Every theorem holds for all answers.
- The service behind a connection is any function from the requests it has been given so far to "carry on", "answer
  -1", "throw" or "throw EAGAIN or EINTR". JSON is not looked into: a body is its bytes, a pool entry its transaction.
- Redis commands are atomic and, in the ledger, always reach the server; account addresses and control keys are
  different keys. A transaction's value is any int64 that can be negated; where a theorem needs stored balances to be
  int64s, it says so.
- `burned` counts what transactions credit to the empty address; what a genesis block says of that address is nobody's.
- `pushed`, `windows`, `replayed`, `burned`, `refused` (the amounts of refused increments, with their signs) and
  `refusals` (how many there were) of the ledger, `order` and `armings` of the timer list, and the trace of the block
  counters record history. No step reads them.

Where the code does not do what its own comments or names say, the model follows the code:

- `addTimer` with a negative timeout is described as deleting a timer; for a handler that has none it inserts one.
- The timer list is ordered by how long a timer waits, not by when it is due: `ChecksAreCompleteIff` says exactly when
  that misses an overdue timer, and `MixedTimeoutsMiss` runs into it.
- In the white list the case for `/` falls through into the case for `-`: `PrefixLineIsExactIff` says exactly when that
  adds too much, and `LowAddressAddsMore` is a line that does. A block of more than 65536 addresses, or one that ends at
  255.255.255.255, is not added; only the fall-through can add something for such a line (`OtherBlocksAreNotAdded`).
- The length mask shifts 111 in decimal, not in binary; its low three bits make it the intended mask (`LengthIsMasked`).
- `deQueueAll` reads and deletes in two steps: `CompleteIffNoPushDuringDrain` says exactly when nothing is lost, and
  `SecondWorkerLosesPush` is a run that loses a transaction.
- The balance check and the debit are two steps: `OverdraftBound` bounds the damage, `OverdraftIsReached` attains it. A
  genesis block that takes while other workers already serve brings an account lower still
  (`GenesisOverdraftIsReached`), exactly when it takes more than one largest value: `StaysAboveFloorIff`.
- The handler accepts negative values. They take from accounts that sent nothing (`AloneStaysNonNegativeIff`), and to the
  empty address they create money: `NeverCreatesIffSound` says exactly which transactions do, `UnsoundTransactionMints`
  is a run of each.
- A read catches an EAGAIN or EINTR that the service throws and keeps the whole buffer, dispatched requests included:
  `InterruptedServiceSeesTwice`.
- Netting a block and applying it one by one can differ when Redis refuses an increment: `NettingDiffersOnOverflow`.
  `NettedIsNetIff` and `SequentialIsNetIff` say exactly when each of them gives every address its net change.

## Model

| member | source | states |
|---|---|---|
| Bytes.Encode16IsBigEndian | core/base/ByteStream.h:130 | a 16-bit field is written most significant byte first, and reading it gives the value back |
| Bytes.Encode32IsBigEndian | core/base/ByteStream.h:131 | the same for 32 bits |
| Bytes.Encode64IsBigEndian | core/base/ByteStream.h:132 | the same for 64 bits |
| Bytes.Decode16IsBigEndian | core/base/ByteStream.h:229-239 | reading a 16-bit field gives the number its bytes denote in network order, and writing that number gives the bytes back |
| Bytes.Decode32IsBigEndian | core/base/ByteStream.h:241-249 | the same for 32 bits |
| Bytes.Decode64IsBigEndian | core/base/ByteStream.h:260-268 | the same for 64 bits |
| Shifts.SwapShortIsShiftOr | core/base/ByteStream.h:17-20 | the arithmetic swap is the source's shifts, bit by bit in 32 bits, their or, and the truncation |
| Shifts.SwapLongIsShiftOr | core/base/ByteStream.h:21-24 | the same for 32 bits |
| Shifts.SwapLongLongIsShiftOr | core/base/ByteStream.h:25-28 | the same for 64 bits |
| Shifts.LengthIsMasked | core/base/Request.cpp:45-67 | the tag is the field shifted right, the length the field under the mask as written, with its decimal 111 shifted in 32 bits |
| Shifts.ServerIdIsShiftOr | core/writer/DirectWriter.cpp:12-25 | a server id is the shifted address ored with the port; unpacking shifts back and truncates |
| BlockBuffers.BlocksForIsCeiling | core/base/BlockBuffer.h:217-222 | the block count is the least that holds the bytes, and is within the maximum exactly when the bytes are |
| BlockBuffers.GrowthLandsOnCeiling | core/base/BlockBuffer.h:212-220 | adding whole blocks for the missing bytes lands on exactly the ceiling of the new size |
| BlockBuffers.CountersAreTotals | core/base/BlockBuffer.h:232-234 | over every run of creations, regrowths and destructions the static counter is the sum over all live buffers and the peak its running maximum |
| BlockBuffers.BlockCounters.CountersAreExact | core/base/BlockBuffer.h:93-94 | the same for the counters the buffer methods keep |
| BlockBuffers.BlockBuffer.constructor | core/base/BlockBuffer.h:73 | a new buffer is empty, holds no block, and is counted with none |
| BlockBuffers.BlockBuffer.Destroy | core/base/BlockBuffer.h:74 | a destroyed buffer gives its blocks back and is no longer counted |
| BlockBuffers.BlockBuffer.Free | core/base/BlockBuffer.h:121-129 | no storage and no block is left, and the counter drops by what was held |
| BlockBuffers.BlockBuffer.Reallocate | core/base/BlockBuffer.h:223-237 | contents survive the move to larger storage, counters and peak follow |
| BlockBuffers.BlockBuffer.IncreaseCapacity | core/base/BlockBuffer.h:208-240 | succeeds exactly when the bytes fit already, or fit the maximum and memory is to be had; lands on exactly the ceiling; a failure changes nothing |
| BlockBuffers.BlockBuffer.Append | core/base/BlockBuffer.h:132-144 | succeeds exactly when the new size is within the maximum (given memory); contents are old contents and new bytes, or unchanged |
| BlockBuffers.BlockBuffer.Resize | core/base/BlockBuffer.h:153-165 | growing pads, shrinking truncates, a failure leaves the contents intact |
| BlockBuffers.BlockBuffer.Replace | core/base/BlockBuffer.h:168-183 | the sequence meaning of all three branches, including the truncation left behind when the inner append fails |
| BlockBuffers.BlockBuffer.Erase | core/base/BlockBuffer.h:186-201 | the bytes from pos on are cut out, and an emptied buffer frees its blocks unless held |
| SockBuffers.Socket.Send | core/xnet/Socket.cpp:104-118 | an ignorable error sends nothing, another throws, otherwise a prefix of the bytes leaves |
| SockBuffers.SockBuffer.MakeRoom | core/base/SockBuffer.h:58-62 | afterwards, given memory, there is no room only in a buffer at its maximum |
| SockBuffers.SockBuffer.RoomIsBounded | core/base/SockBuffer.h:58-63 | given memory a read can take half a block at least until the last block is in use, and a block is added only below that |
| SockBuffers.SockBuffer.Pump | core/base/SockBuffer.h:56-78 | takes everything received or fills the room there is, no more; reports no room exactly when there is none, which given memory is exactly at the maximum; would-block and errors change nothing |
| SockBuffers.SockBuffer.Write | core/base/SockBuffer.h:82-89 | queues everything, exactly when it fits, or throws and changes nothing |
| SockBuffers.SockBuffer.WriteTo | core/base/SockBuffer.h:97-113 | the socket is tried exactly when nothing waits and is given what it takes; it throws exactly when then broken; otherwise all is written exactly when the rest fits the maximum, or without memory the blocks held, and else the exception says whether a part was sent; never out of order |
| SockBuffers.SockBuffer.Flush | core/base/SockBuffer.h:115-121 | moves exactly what the socket takes from the waiting bytes to the socket: their concatenation does not change |
| EventHandlers.EventEpoll.AddEventHandler | core/xnet/IOLoop.cpp:115-136 | only this socket's registration changes, to what it is told |
| EventHandlers.RegisteredAgrees | core/xnet/IOLoop.cpp:122-134 | what the kernel is told is what the socket will be selected for |
| EventHandlers.EffectiveMasks | core/xnet/EventHandler.cpp:39-52 | the reduced masks have the effect of removing, then adding what shutdowns allow; when their sum is zero nothing changes |
| EventHandlers.Register | core/xnet/EventHandler.cpp:52-56 | the kernel is told first, then the socket, and they agree afterwards |
| EventHandlers.AddEvent | core/xnet/EventHandler.cpp:33-57 | afterwards an event is selected exactly when it was added on a side not shut down, or was selected and not removed, and kernel and socket agree |
| EventHandlers.UpdatedSelects | core/xnet/EventHandler.cpp:39-54 | the same of the masks alone |
| Frames.ReadFrame | core/proto/JsonProtoConsumer.cpp:15-46 | a frame takes more than eight bytes and no more than there are, so every round makes progress |
| Frames.HeadIsDecided | core/base/Request.cpp:45-67 | what eight bytes decide, in numbers: the length is the lower 29 bits, tags 0 and 1 make a frame if the length is not zero, its fields in network order; other tags are not read |
| Frames.Parse | core/proto/JsonProtoConsumer.cpp:14-55 | when cutting stops for more data, what is left does not start with a whole frame |
| Frames.VerdictsDecide | core/proto/JsonProtoConsumer.cpp:47-55 | the service carried on after every request but the last; its answer to the last is the reason to stop, if it is one; exactly the frames it carried on after are used up |
| Frames.ReadFrameIsStable | core/proto/JsonProtoConsumer.cpp:15-46 | once the head of the data is decided, more data does not change the decision |
| Frames.ParseSplits | core/proto/JsonProtoConsumer.cpp:11-56 | parsing a concatenation is parsing the first part, then its leftover followed by the second |
| Frames.ReceivedInOnePass | core/conn/Connection.cpp:50-62 | a receiver whose service does not interrupt is where one pass over the stream takes it |
| Frames.FragmentationIndependence | core/conn/Connection.cpp:50-66 | however a stream is split into reads: the service is given the requests of one pass over the stream, in order, and an open connection holds what that pass leaves, no whole frame at its head, exactly when the service throws no EAGAIN or EINTR in that pass; then the reason to stop is the same, too |
| Frames.InterruptedRepeats | core/conn/Connection.cpp:50-66 | however the stream is split, if the service throws one in that pass, it has been given more requests than the pass gives, or whole frames it was given are still in the buffer |
| Frames.PackThenReadFrame | core/base/Request.cpp:47-67 | a packed message is cut out whole with its session, uri and body exactly when its length stays below 2^29 |
| Frames.PackedLayout | core/base/JsonSender.cpp:23-30 | a packed message is session, length of uri and body, uri, body; the numbers in network order |
| Frames.ParsePrefixOfStream | core/proto/JsonProtoConsumer.cpp:11-56 | from the first bytes of a stream of messages come the first messages, each that arrived whole unless the service stopped |
| Frames.DeliveredPrefix | core/conn/Connection.cpp:50-62 | the same through any chunks, and the buffer then holds the arrived part of the next message and nothing else, for a service that does not interrupt |
| Frames.InputNeverFull | core/base/SockBuffer.h:56-66 | if every message fits the maximum and the service does not interrupt, no read leaves the buffer at its maximum, so a well-behaved peer is never closed for a full buffer |
| Frames.FullBufferHoldsTooLargeFrame | core/base/SockBuffer.h:64-66 | for any peer and a service that does not interrupt: a full buffer holds the head of a frame larger than the buffer |
| Frames.InterruptedServiceSeesTwice | core/conn/Connection.cpp:63-66 | a service that throws EAGAIN once is given that request again with the next read |
| JsonConsumers.ForwardBuf.Erase | core/base/ForwardBuf.h:23-27 | the cursor moves on within the data |
| JsonConsumers.JsonRequest.PopHeader | core/base/JsonRequest.cpp:15-28 | reads the nine header bytes in network order and leaves the body, throws exactly when they are not there; other tags read nothing |
| JsonConsumers.JsonProtoConsumer.CutFrame | core/proto/JsonProtoConsumer.cpp:15-47 | the peeks, checks and header reads of one round find exactly what ReadFrame says |
| JsonConsumers.JsonProtoConsumer.Round | core/proto/JsonProtoConsumer.cpp:14-53 | one request is dispatched if a frame is whole, and the cursor moves past it only if the service carries on |
| JsonConsumers.JsonProtoConsumer.OnData | core/proto/JsonProtoConsumer.cpp:11-56 | the loop terminates and is Parse: same requests in the same order, same offset, same reason to stop |
| JsonSenders.JsonSender.constructor | core/base/JsonSender.cpp:3-7 | leaves room for the header before the body; throws exactly when the message does not fit the pack buffer or memory is out |
| JsonSenders.JsonSender.Marshall | core/base/Sender.cpp:20-24 | header room, then the body; throws exactly when they do not fit or memory is out |
| JsonSenders.JsonSender.ReplaceUint32 | core/base/ByteStream.h:153-165 | the effect of replace with a field in network order, at any position, and exactly when it throws |
| JsonSenders.JsonSender.ReplaceUint8 | core/base/ByteStream.h:153-157 | the same for one byte |
| JsonSenders.JsonSender.EndPack | core/base/JsonSender.cpp:23-30 | whatever header and length field were there, the buffer is then exactly the packed message |
| JsonSenders.PackedStaysPacked | core/writer/DirectWriter.cpp:37-42 | packing is idempotent, as the answer path needs, which packs twice |
| Connections.Connection.Accept | core/conn/ConnFactory.cpp:34-50 | an accepted connection starts empty, selected for reading and not for writing, with the invariant |
| Connections.Connection.Connect | core/conn/ConnFactory.cpp:12-32 | an outgoing connection starts empty, selected for reading, and for writing exactly until it is connected |
| Connections.Connection.WriteOut | core/conn/Connection.cpp:18-25 | through the socket if connected, else into the buffer: exactly how it ends, what the socket gets at once, and the stream grows by what was accepted |
| Connections.Connection.SendBin | core/conn/Connection.cpp:9-27 | exactly how it ends and what the socket gets at once; the outgoing stream grows by exactly what was accepted; write interest afterwards exactly if there was any or bytes wait |
| Connections.Connection.Send | core/conn/AbstractConn.cpp:27-31 | what is queued, whole or in a non-empty part or not at all, is the packed message, and which of the three it is |
| Connections.Connection.FlushOut | core/conn/Connection.cpp:41-42 | the flush of onConnected and onWrite conserves the stream, and both buffers stay accounted for |
| Connections.Connection.OnConnected | core/conn/Connection.cpp:29-48 | flushing what was queued while connecting conserves the stream; it throws exactly when bytes waited and the socket is broken; otherwise write interest is kept exactly if bytes still wait |
| Connections.Connection.OnWrite | core/conn/Connection.cpp:81-96 | a flush hands the socket exactly what it takes; the connection closes exactly on an error, and otherwise keeps write interest exactly if bytes still wait |
| Connections.Connection.PumpIn | core/conn/Connection.cpp:53 | the pump of onRead appends exactly what was received, all or as much as there is room for; full, given memory, exactly at the maximum |
| Connections.Connection.Consume | core/conn/Connection.cpp:54-59 | the consumer's verdict and the erase are one Parsing step of the receiver |
| Connections.Connection.OnRead | core/conn/Connection.cpp:50-79 | one read is one Receive step on the bytes taken, all or as many as there is room for, an EAGAIN of the service leaving the buffer as it is; the connection closes exactly when there was no room, recv failed, the peer had closed, or the consumer stopped; no room, given memory, is exactly a buffer at its maximum |
| Pipe.NextKeepsInv | core/conn/Connection.cpp:9-96 | every step keeps: bytes taken and waiting are the packed messages sent, and a torn last one; the receiver is what its chunks make of it |
| Pipe.InvDelivers | core/proto/JsonProtoConsumer.cpp:11-56 | in any such state, unless the service interrupts, the dispatched requests are a prefix of the messages, and all of them once all is drained |
| Pipe.EveryRunDeliversInOrder | core/writer/DirectWriter.cpp:37-42 | end to end: any messages below 2^29, any partial sends, any chunks, any service that throws no EAGAIN or EINTR: requests dispatched are the first messages sent, in order, with session 0xFFFFFFFF, their uri and body |
| PipeSteps.SendStep | core/conn/AbstractConn.cpp:27-31 | sending on a connection is a step of the pipe: queued whole, torn, or nothing, and exactly when which |
| PipeSteps.WriteStep | core/conn/Connection.cpp:81-96 | so is a flush, which moves on exactly what the socket takes |
| PipeSteps.ConnectedStep | core/conn/Connection.cpp:29-48 | so is the end of connecting, with the flush of what waited |
| PipeSteps.ReadStep | core/conn/Connection.cpp:50-79 | so is a read of bytes the peer's socket took and had not delivered: how many are delivered, and exactly when the connection closes |
| PipeSteps.ReceiverHasRoom | core/base/SockBuffer.h:56-66 | in no reachable state of the pipe is an open connection's input buffer at its maximum, if every message fits it |
| PipeSteps.ReadTakesBytes | core/conn/Connection.cpp:50-62 | so, given memory, a read that finds bytes always takes some and never closes for a full buffer |
| ByteStreamProofs.RoundTrip | core/base/ByteStream.h:306-489 | reading encode(v) followed by anything yields v and leaves exactly that rest, for every nesting of integers, bools, strings, pairs, vectors, sets and maps |
| ByteStreamProofs.RoundTripItems | core/base/ByteStream.h:471-489 | the same for the items of a container |
| ByteStreamProofs.RoundTripContainer | core/base/ByteStream.h:471-489 | the same for count and items, sets and maps being rebuilt in their order |
| ByteStreamProofs.UnmarshalExtends | core/base/ByteStream.h:219-295 | what has been read does not depend on what follows |
| ByteStreamProofs.StrictPrefixIsRefused | core/base/ByteStream.h:286-295 | reading any strict prefix of encode(v) raises |
| ByteStreamProofs.CompareOrder | core/base/ByteStream.h:443-469 | the order of sets and maps is a strict total order on the values of one type |
| ByteStreamProofs.InsertAllInOrder | core/base/ByteStream.h:457-469 | inserting items in ascending order rebuilds the container |
| ByteStreamProofs.InsertKeepsOrder | core/base/ByteStream.h:457-469 | inserting anything keeps the keys strictly ascending |
| ByteStreamProofs.UnmarshalIsTyped | core/base/ByteStream.h:351-489 | whatever the bytes, a value that is read has the type asked for, with strictly ascending keys |
| ByteStreamProofs.FirstKeyWins | core/base/ByteStream.h:457-469 | a set or map that is read has exactly those items whose key does not come up earlier in the bytes |
| ByteStreamProofs.NumbersInOrder | core/base/ByteStream.h:443-469 | sets and maps ascend: numbers as numbers, false before true |
| ByteStreamProofs.BytesInOrder | core/base/ByteStream.h:443-469 | strings by the first byte in which they differ, a prefix first |
| ByteStreamProofs.PairsInOrder | core/base/ByteStream.h:443-469 | pairs by the first component, then by the second |
| ByteStreamProofs.ItemsInOrder | core/base/ByteStream.h:443-469 | containers by the first item in which they differ, a shorter one first |
| ByteStreamProofs.LayoutOfScalar | core/base/ByteStream.h:126-141 | a number is as many bytes as its type has, in network order, a bool one byte, a string its length in two bytes and at most 65535 characters; any byte but zero reads as true |
| ByteStreamProofs.LayoutOfCompound | core/base/ByteStream.h:405-477 | a pair is its components, a container its size in four bytes and its items in order |
| BinStreams.BinReadStream.PopFetch | core/base/ByteStream.h:286-295 | takes exactly k bytes or raises and takes none |
| BinStreams.BinReadStream.ReadUint8 | core/base/ByteStream.h:219-227 | one byte, or raises |
| BinStreams.BinReadStream.ReadUint16 | core/base/ByteStream.h:229-239 | two bytes in network order, or raises |
| BinStreams.BinReadStream.ReadUint32 | core/base/ByteStream.h:241-249 | four bytes in network order, or raises |
| BinStreams.BinReadStream.ReadUint64 | core/base/ByteStream.h:260-268 | eight bytes in network order, or raises |
| BinStreams.BinReadStream.Read | core/base/ByteStream.h:351-469 | for every type the cursor-moving reads yield the value, the rest or the exception of Unmarshal |
| BinStreams.BinReadStream.ReadVarstr | core/base/ByteStream.h:270-276 | the same for strings |
| BinStreams.BinReadStream.ReadContainer | core/base/ByteStream.h:479-489 | the counting loop with its insertions is Unmarshal of the container |
| BinStreams.BinWriteStream.Write | core/base/ByteStream.h:306-455 | for every type appends exactly the bytes of Marshal, or throws; given memory it throws only for a string over 65535 bytes or a full buffer |
| BinStreams.BinWriteStream.WriteVarstr | core/base/ByteStream.h:137-141 | the same for strings |
| BinStreams.BinWriteStream.WritePair | core/base/ByteStream.h:405-410 | the same for pairs |
| BinStreams.BinWriteStream.WriteContainer | core/base/ByteStream.h:471-477 | the same for count and items |
| BinStreams.BinWriteStream.WriteItems | core/base/ByteStream.h:475-476 | the same for the loop over the items |
| BinStreams.OutcomeThen | core/base/ByteStream.h:126 | two writes in a row append both values or there was a reason to throw |
| BuilderLock.LockMoves | server/FPService.cpp:117-143 | a worker enters the builder section only by taking the free lock, and only one inside frees it |
| BuilderLock.StepKeepsLock | server/FPService.cpp:228-242 | every step keeps: whoever is in the section owns the lock and is alone there |
| BuilderLock.MutualExclusion | server/FPService.cpp:228-242 | in every run, with reading and deleting the lock as separate steps, at most one worker is in the builder section |
| BuilderLock.SectionStep | server/FPService.cpp:228-242 | in the section only its own steps move a worker on, and the last of them frees the lock: the owner is never refused the release |
| BuilderLock.LockIsReleased | server/FPService.cpp:228-242 | whatever the other workers do, after at most five steps of its own a worker in the section has left it with the lock free |
| BuilderLock.StepKeepsDrain | server/FPService.cpp:244-285 | every step keeps the pool theorem's invariant |
| BuilderLock.BlocksKeepPushes | server/FPService.cpp:244-285 | in every run the blocks in order, with what the builder holds, are the pushes in order without those made between a drain's LRANGE and DEL; the pool is what was pushed since |
| BuilderLock.AloneLosesNothing | cache/RedisCache.cpp:207-218 | with one worker, blocks, hand and pool are the whole push history |
| BuilderLock.CompleteIffNoPushDuringDrain | cache/RedisCache.cpp:207-218 | nothing is missing exactly when no push fell between a drain's read and its delete |
| BuilderLock.SecondWorkerLosesPush | cache/RedisCache.cpp:207-218 | a run of two workers after which a pushed transaction is nowhere |
| Money.GenesisIsReplayedOnce | server/FPService.cpp:69-71 | in every run all workers together make each genesis increment at most once, in order, and all have been made once the lock is taken and nobody replays |
| Money.StepConserves | server/FPService.cpp:379-398 | no step but a genesis increment on an account changes balances, amounts in flight, burned and refused amounts taken together |
| Money.MoneyIsConserved | server/FPService.cpp:354-401 | in every run balances, amounts in flight, amounts credited to the empty address and refused amounts are together the initial total plus what the genesis increments made so far gave to accounts |
| Money.OnlyBurningDestroys | server/FPService.cpp:384-388 | once initialised, money in circulation changes only by a credit to the empty address, by exactly its value, or by a refusal; without a refusal it rises exactly at a negative value credited there, and falls exactly at a positive one |
| Money.NoEmptySenderIsDebited | server/FPService.cpp:356-361 | in no run does an empty sender reach the debit |
| Minting.TransactionMintsIff | server/FPService.cpp:380-387 | exactly when one transaction creates money, refusals included: its value is negative, the sender is credited, and the receiver is empty or would leave the 64-bit range |
| Minting.BurnedNeverFalls | server/FPService.cpp:354-388 | in no run does the burned amount fall, if no transaction from an account to the empty address has a negative value |
| Minting.SoundTransactionsAddNothing | server/FPService.cpp:354-388 | then, while nothing can leave the 64-bit range, circulation never exceeds the initial total and the genesis gifts |
| Minting.UnsoundTransactionMints | cache/RedisClient.cpp:226-228 | every other transaction mints: a run in which it is all that is submitted |
| Minting.NeverCreatesIffSound | server/FPService.cpp:354-388 | submitted transactions never create money, in any run in which no increment is refused, exactly when none from an account to the empty address has a negative value |
| Overdraft.PendingIsBounded | server/FPService.cpp:379-388 | what is approved and not debited is at most the largest value for each worker but an idle one |
| Overdraft.HeadroomOnlyDropsOnApproval | server/FPService.cpp:356-388 | balance less approved amounts falls only at an approval, which the balance covered, and at a genesis increment that takes, by no more than the amount |
| Overdraft.StepKeepsOverdraft | server/FPService.cpp:354-388 | every step keeps that quantity, for every account, at or above -(N-2)*V less what the replay took from it, or, the replay over, -(N-1)*V if that is lower |
| Overdraft.OverdraftBound | server/FPService.cpp:354-388 | in every run of N workers with values in 0..V, from non-negative balances, no account falls below that, whatever the genesis block |
| Overdraft.OverdraftBoundSmallGenesis | server/FPService.cpp:354-388 | if the genesis block takes at most V from an account (nothing, with one worker), that account never falls below -(N-1)*V; with one worker it never goes negative |
| OverdraftLimits.OverdraftIsReached | server/FPService.cpp:354-388 | for every N and V there is a run, without a genesis block, that reaches -(N-1)*V |
| OverdraftLimits.GenesisOverdraftIsReached | server/FPService.cpp:69-71 | for every N from two on, every V and every amount the genesis block takes, there is a run that reaches -(N-2)*V less that amount |
| OverdraftLimits.StaysAboveFloorIff | server/FPService.cpp:69-71 | for every N and V with -(N-1)*V inside the 64-bit range: all runs, with all genesis blocks that take at most t from an account, keep it at or above -(N-1)*V exactly when t is at most V, or with one worker zero |
| OverdraftLimits.HandleIsARun | server/FPService.cpp:354-401 | one uninterrupted transaction has the effect of Handle on the balances; with a named sender it is queued, approved or not, and nothing else changes |
| OverdraftLimits.AloneStaysNonNegativeIff | server/FPService.cpp:380-391 | with one worker and any non-negative balances a transaction leaves all of them non-negative exactly when its value is not negative or the receiver can pay it |
| OverdraftLimits.NegativeValueOverdraws | server/FPService.cpp:380-387 | a negative value takes money from an account that sent nothing |
| Overflow.NothingIsRefused | cache/RedisClient.cpp:220-258 | while balances, genesis and twice the submitted values together fit 64 bits, no run has an increment refused: none is counted, and the refused amounts are zero |
| Blocks.UpdateBalance | server/FPService.cpp:212-226 | the netting loop and the increments give every party its net change once, whatever the order |
| Blocks.ApplyAll | server/FPService.cpp:221-225 | the increments may be made in any key order |
| Blocks.SequentialIsNet | server/FPService.cpp:384-388 | if nothing is refused one by one, an address ends with its balance plus its net change |
| Blocks.SafeIffAllAccepted | cache/RedisClient.cpp:250-254 | no increment is refused, one by one, exactly when no partial sum of a named party leaves the 64-bit range |
| Blocks.NettingRefinesSequential | server/FPService.cpp:212-226 | netting a block gives the very balances of applying its transactions one by one, if nothing is refused one by one |
| Blocks.NettingDiffersOnOverflow | server/FPService.cpp:212-226 | at the end of the 64-bit range the two differ |
| Blocks.InitBalance | server/FPService.cpp:162-179 | terminates on acyclic links; replays every block of the walk, also before a dangling link, and reports whether the chain ended |
| Blocks.QueryBlockChain | server/FPService.cpp:404-424 | terminates; returns the walk after its first block, also up to a dangling link |
| Blocks.WalkFollowsLinks | server/FPService.cpp:162-179 | a walk starts at its block, follows every link to a stored block and stops at the first that leads to none |
| Blocks.ReplayLikeQuery | server/FPService.cpp:162-179 | updating from the first block, if stored, and then from each block queried leaves the balances initBalance leaves |
| Netting.NettedIsNetIff | server/FPService.cpp:212-226 | a netted block leaves every account with its balance plus its net change exactly when no party's net sum leaves the 64-bit range |
| Netting.BlockChangesTotal | server/FPService.cpp:212-226 | then it changes the total over non-empty addresses by exactly minted minus burned |
| Netting.ReplayIsNet | server/FPService.cpp:162-179 | replaying a chain of which no increment is refused gives every account its net change over all transactions of all blocks |
| Netting.SequentialIsNetIff | server/FPService.cpp:384-388 | applied one by one, every prefix of the block leaves every account with its net change exactly when no increment is refused on the way |
| Netting.TotalOfSequential | server/FPService.cpp:384-388 | if nothing is refused one by one, the total changes by what is minted less what is burned |
| Netting.NettingRefinesSequentialIff | cache/RedisClient.cpp:250-254 | where no net sum of any prefix leaves the range, netting every prefix gives what applying it one by one gives exactly when nothing is refused one by one |
| RedisCaches.RenderedReadsBack | cache/RedisClient.cpp:240-242 | the decimal text of any integer reads back as that integer |
| RedisCaches.RenderedInDecimal | cache/RedisClient.cpp:240-242 | decimal digits in ASCII, the highest first, after a minus sign |
| RedisCaches.IncrByAdds | cache/RedisClient.cpp:220-258 | on a key that is absent or was incremented, IncrBy adds, exactly when the key is not empty and the sum fits 64 bits; otherwise nothing changes |
| RedisCaches.QueueIsFifo | cache/RedisCache.cpp:183-218 | a queue gives out what was put in, in order, one by one or all at once |
| RedisCaches.QueueConserves | cache/RedisCache.cpp:183-218 | however pushes, pops and reads alternate, what was taken out and then what is left is what was put in, in order |
| RedisCaches.SetIsRead | cache/RedisClient.cpp:145-183 | a read after a plain write returns the value, whatever entry was there; after a delete it finds nothing |
| RedisCaches.SetNXIsALock | cache/RedisClient.cpp:174-178 | SET NX succeeds exactly on an absent key, whose value is then the one set, and otherwise changes nothing |
| RedisCaches.WrongTypeIsKept | cache/RedisClient.cpp:110-132 | a command never changes an entry of another type and reads nothing out of it; Get and LPop say Ok all the same |
| RedisCaches.EmptyKeyIsRefused | cache/RedisClient.cpp:150-152 | the client refuses the empty key, except for pops, whole reads and sets |
| RedisCaches.MembersAreTheAdded | cache/RedisCache.cpp:220-240 | a set has exactly the members that were added, whatever the order and however often |
| RedisCaches.HashKey | cache/RedisCache.cpp:39-46 | the loop from the eighth character on, also for shorter keys, is the recursive 32-bit hash |
| RedisCaches.HashOfAccount | cache/RedisCache.cpp:39-45 | the hash of keys of up to seven characters, of one more, and of one above 0x7F, which counts as negative, in numbers |
| RedisCaches.ShardOfAccount | cache/RedisCache.cpp:46 | the hash's top bit does not count for the shard |
| RedisCaches.PickShard | cache/RedisCache.cpp:37-47 | the index is always within the pool |
| RedisCaches.FlatAt | cache/RedisCache.cpp:37-62 | the one map the shards stand for has a key's entry from the shard of its hash |
| RedisCaches.ShardedExec | cache/RedisCache.cpp:113-240 | a command on its key's shard is the command on the one map, reply included, and keys stay in their shards |
| RedisCaches.ShardedEqualsFlat | cache/RedisCache.cpp:113-240 | for every pool size and every sequence of commands the pool answers what one store would |
| RedisCaches.LastSetIsRead | cache/RedisCache.cpp:124-133 | on a pool of any size, after any commands, a write, and any commands that spare its key, a read answers exactly the value written |
| RedisCaches.RedisCache.Dispatch | cache/RedisCache.cpp:37-62 | returns the key's client, connected, or null exactly when it is not connected and connecting fails |
| RedisCaches.RedisCache.Call | cache/RedisCache.cpp:113-240 | an operation does to the flat map, and answers, what one server would, and its client is then connected; an unreachable one changes nothing |
| RedisCaches.SetThenGet | cache/RedisCache.cpp:113-133 | the same with the methods, and every other key keeps its entry |
| RedisCaches.RedisCache.DeQueueAll | cache/RedisCache.cpp:207-218 | reads the whole list, then deletes the key; an error of the read deletes nothing |
| LedgerStore.BalanceIsRead | server/FPService.cpp:323-333 | what GET returns, read by atoll, is the balance, zero for an unknown account; an empty address fails |
| LedgerStore.IncrByHeld | cache/RedisCache.cpp:161-170 | INCRBY on an account's key is the ledger's increment and touches no other account |
| LedgerStore.StepIsCommand | server/FPService.cpp:117-401 | every step of the ledger is at most one command; the store after it holds the state after the step, and the worker's own place and the reply decide where it goes |
| LedgerStore.RunIsCommands | server/FPService.cpp:117-401 | so a whole run is the commands its workers send, on one store |
| LedgerStore.LedgerRunsOnShards | cache/RedisCache.cpp:37-62 | and on a pool of any size: the shards together hold the balances, the pool and the locks of the ledger's state |
| Registry.ServerIdsAreUnique | core/writer/DirectWriter.cpp:12-25 | unpacking a server id gives address and port back, so ids are unique and none is (sid_t)-1 |
| Registry.DirectWriter.IdsAreUnique | core/conn/MultiConnManager.cpp:92-98 | live connections have different ids and are found under their own |
| Registry.DirectWriter.OnConnCreate | core/conn/MultiConnManager.cpp:92-98 | the new connection gets the next id in 32 bits; no live one is lost exactly when that id is free, as it is until the counter wraps |
| Registry.DirectWriter.DispatchById | core/conn/MultiConnManager.cpp:70-90 | a connection whose send throws is disabled and queued for deletion, no other is touched |
| Registry.DirectWriter.ConnectServer | core/writer/DirectWriter.cpp:102-120 | on success the server maps to the new live connection, otherwise the table of servers is unchanged; a constructor that throws registers nothing, and only a connection under the next id can be displaced |
| Registry.DirectWriter.Dispatch | core/writer/DirectWriter.cpp:75-100 | uses the known connection, else a new one; the three ways to fail keep the invariant and every connection but the one whose send threw as it was |
| Registry.DirectWriter.EraseConnection | core/writer/DirectWriter.cpp:122-141 | exactly this connection and the servers it served are forgotten |
| Registry.DirectWriter.DelayDelConn | core/conn/ConnManager.cpp:91-97 | the connection is disabled and queued |
| Registry.DirectWriter.DoEvent | core/conn/ConnManager.cpp:74-89 | exactly the enabled connections remain, with exactly the servers they serve; the queue is empty |
| TimerLists.TimerList.Unarm | core/xnet/TimerList.cpp:12-25 | removes the first node to be replaced, if any, and says whether that was a cancellation |
| TimerLists.TimerList.Arm | core/xnet/TimerList.cpp:27-33 | the new node goes behind all that wait no longer, so equal timeouts stay in arming order |
| TimerLists.TimerList.AddTimer | core/xnet/TimerList.cpp:10-36 | both together; a cancellation that finds nothing arms; the other handlers' timers stay, and a handler's only timer is replaced, cancelled, or, for the same timeout or zero, joined by another |
| TimerLists.WithoutOf | core/xnet/TimerList.cpp:12-25 | the first loop leaves the other handlers' timers and erases a handler's only one unless the timeout is its own or zero |
| TimerLists.TimerList.CheckTimer | core/xnet/TimerList.cpp:47-61 | removes exactly the longest prefix of timers armed more than their timeout ago, in order; the next one is not; fired and remaining are the old list |
| TimerLists.ArmAndCheck | core/xnet/TimerList.cpp:47-61 | alone on the list a timer fires, once, at the first check at which more than its timeout has passed, not yet at exactly its timeout |
| TimerLists.InsertionKeepsOrder | core/xnet/TimerList.cpp:27-33 | the list stays sorted by timeout, equal timeouts by arming |
| TimerLists.EqualTimeoutsFireAll | core/xnet/TimerList.cpp:47-61 | when all timeouts are equal a check fires every overdue timer |
| TimerLists.ChecksAreCompleteIff | core/xnet/TimerList.cpp:47-61 | at every clock a check leaves nothing overdue exactly when the list is in order of the deadlines |
| TimerLists.CheckTooEarly | core/xnet/TimerList.cpp:52-55 | while the first timer is not overdue nothing fires, whatever waits behind it |
| TimerLists.MixedTimeoutsMiss | core/xnet/TimerList.cpp:10-61 | a run of two timers after which an overdue one has not fired |
| Bits.SwapCommutes | core/xnet/WhiteLst.cpp:49-50 | and, or and not commute with swapping bytes, so a mask may be applied in network order |
| WhiteLists.WhiteLst.Add | core/xnet/WhiteLst.h:22 | adds the address unless it is the one that means none |
| WhiteLists.WhiteLst.AddRange | core/xnet/WhiteLst.cpp:10-22 | the 32-bit loop terminates and adds exactly the addresses between the ends, if the range is no larger than the guard |
| WhiteLists.BuildMask | core/xnet/WhiteLst.cpp:47-48 | the mask loop computes the recursive mask |
| WhiteLists.MaskValue | core/xnet/WhiteLst.cpp:47-48 | that mask is 2^32 - 2^(32-len) |
| WhiteLists.WhiteLst.ParseAdd | core/xnet/WhiteLst.cpp:24-56 | adds exactly what Adds says of the line, fall-through included |
| WhiteLists.SpanIsRange | core/xnet/WhiteLst.cpp:10-22 | a range line adds exactly the addresses from its first to its last, if neither is 255.255.255.255 and they are at most 65536 apart, and nothing otherwise |
| WhiteLists.SingleIsOne | core/xnet/WhiteLst.cpp:29-33 | a line with one address adds it, unless it is 255.255.255.255 |
| WhiteLists.InvalidPrefixAddsNothing | core/xnet/WhiteLst.cpp:37-46 | a prefix line without an address, or with a number of bits outside 1 to 32, adds nothing |
| WhiteLists.BlockEnds | core/xnet/WhiteLst.cpp:49-50 | masked and filled, an address gives the first and the last of its block |
| WhiteLists.FirstRangeIsBlock | core/xnet/WhiteLst.cpp:43-51 | the first range is exactly the addresses that share the prefix, if there are at least 16 bits and the block does not end at 255.255.255.255; else nothing |
| WhiteLists.SecondRangeIsEmptyIff | core/xnet/WhiteLst.cpp:52-53 | exactly when the fall-through adds nothing |
| WhiteLists.PrefixLineIsExactIff | core/xnet/WhiteLst.cpp:40-55 | a canonical line adds its block and nothing else exactly when the address is above its bit count, or that number lies in the block; every base above 0.0.0.32 does |
| WhiteLists.LowAddressAddsMore | core/xnet/WhiteLst.cpp:42-54 | a line that fails: 0.0.0.5/32 adds every address up to 0.0.0.32 |
| WhiteLists.OtherBlocksAreNotAdded | core/xnet/WhiteLst.cpp:40-55 | with fewer than 16 bits, or a block ending at 255.255.255.255, the block is not added: the line adds exactly the addresses from its own up to the bit count, so nothing exactly when its address is above that |

## Left out

Stated for less than one might wish:

- RoundTrip: encodings up to 2^30 bytes, the most a pack buffer holds; a container's 32-bit count cannot wrap there.
- StrictPrefixIsRefused: the same limit, for the same reason.
- NettingRefinesSequential: for blocks of which Redis would refuse nothing, one by one; the converse, in NettingRefinesSequentialIff, is for all prefixes together, since refusals in one block can cancel out.
- StaysAboveFloorIff: exact for what a genesis block takes in all; for one particular block, what it gives before it takes is not set off. -(N-1)*V has to be inside the 64-bit range, where Redis would refuse the last debit otherwise.
- NothingIsRefused: a sufficient condition, not a necessary one.
- UpdateBalance: the source adds up a block in int64, where overflow is undefined; the sums here are unbounded, the increments are not.
- InitBalance: the links from the first block on must be acyclic; on a cycle the source does not terminate.
- AddEventHandler: what epoll is told, not what epoll does; masks are the eight bits that fit `selevent`.
- CheckTimer: the elapsed time does not wrap; what the fired handlers then do is not part of the list.
- Dispatch: an exception of the first send on a new connection leaves the connection registered and enabled, as in the source; what its caller does is not modelled.

Not modelled:

- Sockets, epoll, signals, processes, descriptor passing, hiredis, TinyXML, JSON, logging, `Config`, `ConsoleServer`: their answers are parameters.
- RC4 filtering, which is compiled out unless TLS is on: the filter is the identity.
- The binary protocol (`Sender::endPack`, `Request::popHeader`, `MsgProtoConsumer`), whose header length disagrees with `HEADER_SIZE`.
- The three-argument `JsonSender` constructor, which marshals the body twice, and wide strings.
- What a service does with a frame whose tag is neither json nor bin: its uri is never set. The model ends there.
- `BlockBuffer::reserve` and the copying `SockBuffer::write` of another buffer.
- Sends by the service from inside a read are separate steps; one consumer per connection.
- After a partly overflowed send the outgoing stream is torn inside a message; the pipe sends nothing more after it.
- `Socket::shutdown`, which nothing calls, and `removeEvent`, which only the destructor calls.
- `RedisCache::Init`, key expiry, and a server lost in the middle of a command.
- `recieveBlock`, which returns at once, `BCLock`, which `init` releases without holding it, and any claim that blocks link into a chain: `lastBlockKey` is never written.
- A worker that crashes or restarts.
- `MultiConnManager::dispatchByIds`, `eraseConnectionById`, and the memory of deleted connections.

# zbus core, modelled in Dafny

zbus is a message broker: producers post messages to named queues (MQs), consumers pull them,
and an RPC layer runs on top. Both the old broker (`org.zbus`) and the new one (`io.zbus`) are
covered here, along with two parts of the Go client. This project models the parts of zbus that
decide what happens to a message and its headers:

- **Disk blocks** (`DiskBlock`): the frames a `Block` appends to its file and reads back.
- **Old broker** (`ServerMq`, `MqAdaptor`): the load-balancing MQ that pairs parked pull
  requests with queued messages, and the broker adaptor that routes commands to MQs.
- **New broker** (`ChannelTable`, `MqServerAdaptor`): a message queue's channel table, and
  the broker adaptor's request validation, routing and handlers.
- **HTTP** (`HttpCodec`, `HttpRpc`): the header logic of the HTTP/WebSocket codec, and the
  RPC-over-HTTP adaptor that turns a URL path into an RPC request.
- **Go client** (`MappedBuffer`, `GoMessage`): the memory-mapped buffer of the disk queue,
  and the wire format of a message.
- **Broker choice** (`IoZbusBroker`, `OrgZbusBroker`, `BrokerSelector`): how a broker address
  is classified as HA or single, and how the HA client picks a broker.
- **Values and client state** (`JsonKit`, `ServerAddress`, `ClientAdaptor`): the
  JSON-repair helper, the server address value type, and a client's address parsing,
  attributes and ticket table.

`Wrappers` (Option, Result), `Text` (Java and Go string primitives) and `Bytes` (big-endian
integers) are shared helpers.

Where the source mutates an object in place, the model is a class: its fields, `modifies`
clauses, and loops with invariants. Each method is proved against a function of the old
state. Pure code is modelled as functions, with lemmas about them.

Two points where the code decides differently from what a reader might expect, modelled as
the code has them:

- `ClientAdaptor` rejects an address that `split(":")` cuts into more than two pieces, not an
  address with more than one colon. Java's `split` drops trailing empty pieces, so `host:80:`
  is port 80, and so is `host:`.
- Java's `String.matches` must match the whole string, so the old `ZbusBroker`'s HA test only
  accepts one-char addresses (see Findings).

## Model

| member | source | states |
|---|---|---|
| DiskBlock.BlockNumberError | src/main/java/org/zbus/mq/disk/Block.java:21-26 | a block number is accepted exactly when 0 <= n < block count; a negative one is rejected with the message "blockNumber should>=0 but was n" |
| DiskBlock.Block.constructor | src/main/java/org/zbus/mq/disk/Block.java:18-36 | only an accepted block number constructs a block; the block starts with the file and end offset it is given, and no frames are logged yet |
| DiskBlock.Frame | src/main/java/org/zbus/mq/disk/Block.java:49-51 | a frame is 12 header bytes followed by the payload: the first 8 decode big-endian, as a signed long, to the write offset, and the next 4 to the payload length |
| DiskBlock.WriteAt | src/main/java/org/zbus/mq/disk/Block.java:48-51 | writing after a seek puts the chunk at the offset, keeps the bytes after it, and grows the file only as far as the chunk reaches |
| DiskBlock.WriteAtKeepsBefore | src/main/java/org/zbus/mq/disk/Block.java:48-51 | a write leaves every byte before its offset unchanged |
| DiskBlock.ReadOfFrame | src/main/java/org/zbus/mq/disk/Block.java:48-73 | round trip: `read(p)` after a write at end offset p returns exactly the payload written |
| DiskBlock.ReadUnaffectedByLaterWrite | src/main/java/org/zbus/mq/disk/Block.java:65-73 | a frame that ends by the offset of a later write reads back the same after that write |
| DiskBlock.FrameWithinItsEnd | src/main/java/org/zbus/mq/disk/Block.java:48-52 | the frame just written lies wholly before the new end `old + 12 + length` |
| DiskBlock.WriteKeepsLogs | src/main/java/org/zbus/mq/disk/Block.java:44-54 | an append at the end offset keeps the invariant: every frame written so far reads back, frames are contiguous, and the stored end offset is the Java-int truncation of the true end |
| DiskBlock.EndsBy | src/main/java/org/zbus/mq/disk/Block.java:52 | in contiguous frames, every frame starts and ends no later than the last one |
| DiskBlock.AppendKeepsReadable | src/main/java/org/zbus/mq/disk/Block.java:48-52 | appending a frame where the last one ends keeps all earlier frames readable and the sequence contiguous |
| DiskBlock.ContiguousSnoc | src/main/java/org/zbus/mq/disk/Block.java:52 | a frame starting at the previous end continues contiguous frames |
| DiskBlock.Block.WrittenFramesPrecedeEnd | src/main/java/org/zbus/mq/disk/Block.java:94-96 | `isEndOfBlock` is false at the offset of every frame written and true at the end of the last one |
| DiskBlock.Block.Write | src/main/java/org/zbus/mq/disk/Block.java:40-58 | a full block (end offset >= BlockMaxSize) returns 0, changing nothing; otherwise the frame goes at the end offset, the end offset becomes `old + 12 + length` in int arithmetic, and the length is returned; a negative end offset is the seek's IOException |
| DiskBlock.Block.Append | src/main/java/org/zbus/mq/disk/Block.java:48-54 | the successful path of `write`: the new file and end offset, and the log of written frames extended |
| DiskBlock.ReadFrame | src/main/java/org/zbus/mq/disk/Block.java:65-73 | reading at pos: a negative pos is the negative-seek error; a file too short for the 12-byte header is end of file; otherwise it succeeds exactly when the signed size field is non-negative, and gives that many bytes, the payload bytes present followed by zeros |
| DiskBlock.Block.IsFull | src/main/java/org/zbus/mq/disk/Block.java:84-86 | `isFull()`: the end offset has reached `BlockMaxSize` (used by `Write`) |
| DiskBlock.Block.IsEndOfBlock | src/main/java/org/zbus/mq/disk/Block.java:94-96 | `isEndOfBlock(offset)`: no data at or after the offset (used by `WrittenFramesPrecedeEnd`) |
| DiskBlock.Block.Read | src/main/java/org/zbus/mq/disk/Block.java:65-73 | `read(pos)` is the frame read: a negative seek, a file too short for the header, or a negative size fails; a short payload comes back zero-filled to its size |
| ServerMq.DeliveredCopy | src/main/java/org/zbus/mq/server/MQ.java:86-93 | the copy sent has no body and the queued message's headers (the reading of `copyWithoutBody` admitted under Left out), carries the queued message's id as raw id and the pull message's id as id, and has status 200 when the queued message had none |
| ServerMq.DispatchFrom | src/main/java/org/zbus/mq/server/MQ.java:70-100 | one dispatch pass: every message is either still queued or delivered, and a pass that polls no pull leaves the messages as they were and delivers nothing |
| ServerMq.DispatchDrains | src/main/java/org/zbus/mq/server/MQ.java:70-100 | dispatch stops only when the pull queue or the message queue is empty, and the pulls left are a suffix of the pull queue |
| ServerMq.DispatchConserves | src/main/java/org/zbus/mq/server/MQ.java:79-99 | no message is lost or duplicated: messages still queued plus messages delivered equal the messages queued before, as multisets |
| ServerMq.DispatchDeliversToActive | src/main/java/org/zbus/mq/server/MQ.java:75-94 | every delivery goes to a pull of an active session whose write succeeded, and the copy is paired with the pull message's id |
| ServerMq.DispatchSkipsInactive | src/main/java/org/zbus/mq/server/MQ.java:75-77 | a queue of pulls whose sessions are all closed is emptied without taking, writing or polling a message |
| ServerMq.SkipInactiveStep | src/main/java/org/zbus/mq/server/MQ.java:70-77 | at any point of the loop, a head pull whose session is closed is dropped and the same messages go on to the pulls behind it, whatever their sessions |
| ServerMq.FailedWriteRequeues | src/main/java/org/zbus/mq/server/MQ.java:96-99 | a message whose write fails goes to the back of the message queue, and the pull is used up |
| ServerMq.PullOf | src/main/java/org/zbus/mq/server/MQ.java:56-57 | finds the first pull of the session, or reports that it has none |
| ServerMq.RequestedKeepsOnePull | src/main/java/org/zbus/mq/server/MQ.java:56-65 | a consume replaces the pull message of the session's existing pull, or appends a new pull; either way each session has at most one pull, and other pulls are untouched |
| ServerMq.WithoutPullOfRemovesSession | src/main/java/org/zbus/mq/server/MQ.java:107-114 | removing the session's pull leaves every other session's pull and none of its own |
| ServerMq.ActivePullsFilter | src/main/java/org/zbus/mq/server/MQ.java:119-126 | cleaning keeps exactly the pulls of active sessions |
| ServerMq.InactiveIdsOf | src/main/java/org/zbus/mq/server/MQ.java:119-126 | the ids removed from `pullSessions` are exactly those of inactive sessions with a pull |
| ServerMq.ActivePullsKeepsOnePull | src/main/java/org/zbus/mq/server/MQ.java:119-126 | cleaning keeps at most one pull per session |
| ServerMq.MQ.constructor | src/main/java/org/zbus/mq/server/MQ.java:47-49 | a new MQ has its name and message queue, and no pulls or pull sessions |
| ServerMq.MQ.Consume | src/main/java/org/zbus/mq/server/MQ.java:52-67 | records the session, updates or parks its pull, then dispatches: the new queues, the writes made and the update time are those of the dispatch function |
| ServerMq.MQ.FindPull | src/main/java/org/zbus/mq/server/MQ.java:56-62 | the loop over `pullQ` finds the index `PullOf` specifies |
| ServerMq.MQ.Dispatch | src/main/java/org/zbus/mq/server/MQ.java:69-101 | the while loop ends in the state the dispatch function gives, and `lastUpdateTime` is stamped only if a message was polled |
| ServerMq.MQ.CleanSession | src/main/java/org/zbus/mq/server/MQ.java:104-115 | removes the session from `pullSessions`, and its pull from `pullQ` |
| ServerMq.MQ.CleanInactive | src/main/java/org/zbus/mq/server/MQ.java:118-127 | removes every pull of an inactive session, and that session from `pullSessions` |
| ServerMq.MQ.GetMqInfo | src/main/java/org/zbus/mq/server/MQ.java:130-143 | the info reports the name, creator, mode and update time; the number of queued messages and of pull sessions; and one consumer entry per pull, in queue order |
| ChannelTable.Applied | src/main/java/io/zbus/mq/model/MessageQueue.java:206-214 | only the non-null fields of the saved channel change the reader; the offset and checksum change only when the seek succeeds |
| ChannelTable.SavedTouchesOneEntry | src/main/java/io/zbus/mq/model/MessageQueue.java:198-219 | a save adds at most its own key, removes none, and changes no other entry |
| ChannelTable.SaveIsIdempotentCreate | src/main/java/io/zbus/mq/model/MessageQueue.java:200-204 | a reader is built only the first time a name is saved; the second save reuses it |
| ChannelTable.SaveOfNullsKeepsReader | src/main/java/io/zbus/mq/model/MessageQueue.java:206-214 | saving a channel whose fields are all null changes nothing |
| ChannelTable.SaveTwiceIsSaveOnce | src/main/java/io/zbus/mq/model/MessageQueue.java:198-219 | saving the same channel twice is the same as saving it once |
| ChannelTable.AbstractMessageQueue.constructor | src/main/java/io/zbus/mq/model/MessageQueue.java:151-153 | a new queue has its name and an empty channel table |
| ChannelTable.AbstractMessageQueue.Info | src/main/java/io/zbus/mq/model/MessageQueue.java:161-168 | the info map has exactly the four keys MQ, type, mask and size, with the queue's values |
| ChannelTable.AbstractMessageQueue.Read | src/main/java/io/zbus/mq/model/MessageQueue.java:171-177 | an unknown channel is an IllegalArgumentException "Missing channel: id"; a known one reads one message from its reader |
| ChannelTable.AbstractMessageQueue.ReadCount | src/main/java/io/zbus/mq/model/MessageQueue.java:180-186 | the same, reading up to `count` messages |
| ChannelTable.AbstractMessageQueue.ChannelOf | src/main/java/io/zbus/mq/model/MessageQueue.java:189-193 | null for an unknown channel, else the reader's channel |
| ChannelTable.AbstractMessageQueue.SaveChannel | src/main/java/io/zbus/mq/model/MessageQueue.java:198-219 | the table becomes the save function of the old table; a failed reader build is swallowed |
| ChannelTable.AbstractMessageQueue.RemoveChannel | src/main/java/io/zbus/mq/model/MessageQueue.java:222-227 | the key is removed, and its reader is destroyed exactly when there was one |
| ChannelTable.AbstractMessageQueue.Channels | src/main/java/io/zbus/mq/model/MessageQueue.java:230-232 | the channel names are exactly the table's keys |
| MqServerAdaptor.Reply | src/main/java/io/zbus/mq/MqServerAdaptor.java:281-293 | a reply carries the status and message, and echoes the request's id whenever there is a request |
| MqServerAdaptor.OnMessage | src/main/java/io/zbus/mq/MqServerAdaptor.java:49-100 | the checks run in order: an unsupported message type throws; no JSON is 400 "json format required"; no cmd is 400 "cmd key required"; a failed authentication is 403 with the authenticator's message; an unknown verb is 404 "Command(verb) Not Found" with the lower-cased verb; each answer echoes the request's id; otherwise the handler of the lower-cased verb runs, on the request with `cmd` removed; the answer goes back on the channel the message came in on |
| MqServerAdaptor.CommandCaseInsensitive | src/main/java/io/zbus/mq/MqServerAdaptor.java:73-92 | two verbs that are equal up to case are handled the same way |
| MqServerAdaptor.HandlerFailed | src/main/java/io/zbus/mq/MqServerAdaptor.java:93-99 | a handler that throws gets a 500 reply with the exception message |
| MqServerAdaptor.CreateReply | src/main/java/io/zbus/mq/MqServerAdaptor.java:102-127 | a missing mq is 400; a failed save is 500; otherwise 200 "OK, CREATE (mq=…)", with ",channel=…" only when a channel was given |
| MqServerAdaptor.RemoveReply | src/main/java/io/zbus/mq/MqServerAdaptor.java:130-149 | the same for remove, with "OK, REMOVE" |
| MqServerAdaptor.Publish | src/main/java/io/zbus/mq/MqServerAdaptor.java:155-176 | the message is written and dispatched exactly when the mq is named and known; then the 200 reply is sent unless ack is false; otherwise the reply is 400 or 404 |
| MqServerAdaptor.Validate | src/main/java/io/zbus/mq/MqServerAdaptor.java:178-201 | a request passes exactly when its mq and channel are both named and exist; a missing field is 400 and an unknown one 404, each with the source's message: "Missing mq field", "Missing channel field", "MQ(mq) Not Found", "Channel(channel) Not Found" |
| MqServerAdaptor.TakeOf | src/main/java/io/zbus/mq/MqServerAdaptor.java:236-246 | an invalid request gets the validation reply; a valid one takes from its mq and channel with the request id, and a window of 1 when none is given |
| MqServerAdaptor.QueryReply | src/main/java/io/zbus/mq/MqServerAdaptor.java:248-279 | 200 with the queue's info when no channel is named; 200 with the channel when it exists; otherwise 400 or 404 |
| MqServerAdaptor.SubscribedKeepsTarget | src/main/java/io/zbus/mq/MqServerAdaptor.java:214-231 | a first sub records the session's mq, channel and client id; a repeated sub keeps them and updates only the window; the topic list becomes just the request's topic, or empty; other sessions are untouched |
| MqServerAdaptor.MqServerAdaptor.constructor | src/main/java/io/zbus/mq/MqServerAdaptor.java:24-46 | a new adaptor has no subscriptions and no sessions |
| MqServerAdaptor.MqServerAdaptor.Subscribe | src/main/java/io/zbus/mq/MqServerAdaptor.java:203-234 | an invalid request gets its validation reply and changes nothing; a valid one is acknowledged unless ack is false, updates the subscription table, and dispatches its mq and channel |
| MqServerAdaptor.MqServerAdaptor.CleanSession | src/main/java/io/zbus/mq/MqServerAdaptor.java:297-302 | the session and its subscription are both removed |
| MqAdaptor.HandlerMap | src/main/java/org/zbus/mq/server/MqAdaptor.java:47-58 | the handler table has exactly the ten registered command names; each name holds the handler of its last registration, so the heartbeat, registered last, always keeps its name, and "" holds the home page unless the data, jquery or heartbeat name is also "" |
| MqAdaptor.InstalledLastWins | src/main/java/org/zbus/mq/server/MqAdaptor.java:47-58 | registering handlers one after another in a map leaves, under each name, the handler of that name's last registration |
| MqAdaptor.RegistrationsInstalled | src/main/java/org/zbus/mq/server/MqAdaptor.java:47-58 | the ten `registerHandler` calls of the constructor, in their order, give the same map as the registration list |
| MqAdaptor.FromUrl | src/main/java/org/zbus/mq/server/MqAdaptor.java:62-103 | an empty URL makes the command "" (home); a URL mq fills a missing mq; when the URL names an RPC-mode queue and a method (or no command), the message becomes exactly a produce to that mq with ack false and the RPC JSON body; otherwise only the missing mq and the missing command are filled from the URL; the id and other headers are kept |
| MqAdaptor.RpcJson | src/main/java/org/zbus/mq/server/MqAdaptor.java:83-91 | the RPC body is exactly `{"module": "m", "method": "f"}`, with `, "params": [p]` before the closing brace when params were given |
| MqAdaptor.Stamp | src/main/java/org/zbus/mq/server/MqAdaptor.java:107-109 | the message gets the session id as sender, the server address as server and the session's remote address; nothing else changes |
| MqAdaptor.OnMessage | src/main/java/org/zbus/mq/server/MqAdaptor.java:105-135 | the message is first stamped with sender, server and remote address; a stamped message with a command goes to that command's handler if there is one, keeping its id and headers; a message without one is routed as `handleUrlMessage` completes the stamped message from its URL, and goes to a handler exactly when that completion has a registered command; a command with no handler is answered 400 with the message's id and the body `Bad format: command(c) not support`, with `null` for c when the completed message still has no command |
| MqAdaptor.CreateMqRequest | src/main/java/org/zbus/mq/server/MqAdaptor.java:220-248 | a wrong register token is 403; otherwise a blank trimmed mq_name, a blank mq_mode or a mode that is not an int is 400; a request that passes gives the trimmed name and the parsed mode |
| MqAdaptor.NewQueue | src/main/java/org/zbus/mq/server/MqAdaptor.java:259-274 | a created queue is held in memory exactly when the Memory or RPC bit is set, and is a PubSub queue exactly when the PubSub bit is set; it records its mode, creator and access token |
| MqAdaptor.LoadedQueue | src/main/java/org/zbus/mq/server/MqAdaptor.java:424-436 | a loaded queue is on disk, has the stored flag as its mode and "System" as its creator, and is PubSub exactly when the flag has the PubSub bit |
| MqAdaptor.MqAdaptor.constructor | src/main/java/org/zbus/mq/server/MqAdaptor.java:40-60 | a new adaptor has the handler table above, the register token, and empty queue and session tables |
| MqAdaptor.MqAdaptor.FindMq | src/main/java/org/zbus/mq/server/MqAdaptor.java:137-145 | the queue named by the message, or a 404 reply when it is unknown; a null mq name is the table's NullPointerException |
| MqAdaptor.MqAdaptor.ProduceMsg | src/main/java/org/zbus/mq/server/MqAdaptor.java:151-171 | an unknown mq is 404 and a failed auth 403, both changing nothing; otherwise the message is produced to the queue with its cmd and ack headers removed, the queue's update time is stamped, and a 200 reply is sent only if ack was on |
| MqAdaptor.MqAdaptor.ConsumeMsg | src/main/java/org/zbus/mq/server/MqAdaptor.java:173-191 | an unknown mq is 404 and a failed auth 403; otherwise the pull is handed to the queue and the session is marked as consuming that mq |
| MqAdaptor.MqAdaptor.CreateMqMsg | src/main/java/org/zbus/mq/server/MqAdaptor.java:217-283 | a rejected request gets its 403 or 400 reply and changes nothing; an existing name is answered 200 and left alone; a new name adds the new queue and is answered 200 |
| MqAdaptor.MqAdaptor.CleanSession | src/main/java/org/zbus/mq/server/MqAdaptor.java:364-375 | the session is removed, and the queue it consumed from, if any and still known, cleans it |
| MqAdaptor.MqAdaptor.LoadMq | src/main/java/org/zbus/mq/server/MqAdaptor.java:417-442 | after the clear-then-fill loop, the queue table has exactly the stored queues, each loaded from its flag |
| MappedBuffer.Check | clients/Go/diskq/mbuf.go:69-74 | when `pos + forward` does not overflow `int32`, the check passes exactly when the bytes stay within the length |
| MappedBuffer.Overwrite | clients/Go/diskq/mbuf.go:162 | `copy` leaves the length as it was, puts the source bytes from the offset on, and keeps every other byte |
| MappedBuffer.Take | clients/Go/diskq/mbuf.go:125-132 | a checked slice succeeds exactly when `0 <= pos`, `0 <= n` and `pos + n <= len`, and is then the bytes `pos..pos+n`; running past the end is the check's error rather than a panic |
| MappedBuffer.GetByteAt | clients/Go/diskq/mbuf.go:82-89 | a byte is read exactly when the cursor is inside the region; the cursor then moves one on |
| MappedBuffer.GetIntAt | clients/Go/diskq/mbuf.go:92-122 | a `width`-byte read succeeds exactly when the bytes are inside the region, moves the cursor by `width` and gives a value in the signed range of that width |
| MappedBuffer.GetBytesAt | clients/Go/diskq/mbuf.go:125-132 | `GetBytes(n)` succeeds exactly when the n bytes are inside the region, gives those bytes and moves the cursor past them |
| MappedBuffer.GetStringAt | clients/Go/diskq/mbuf.go:135-150 | inside the region, a length byte of at most 127 whose bytes fit gives exactly those bytes and moves past them, a length byte over 127 is the "invalid length" error, and bytes that run past the region are `check`'s error; any successful read is of that form |
| MappedBuffer.PutByteAt | clients/Go/diskq/mbuf.go:168-176 | a byte is written exactly when the cursor is inside the region, at the cursor, which then moves one on |
| MappedBuffer.PutIntAt | clients/Go/diskq/mbuf.go:179-209 | an integer write succeeds exactly when `step` bytes remain, and moves the cursor by `step` |
| MappedBuffer.PutBytesAt | clients/Go/diskq/mbuf.go:212-220 | without overflow, bytes are written exactly when they fit, over the region from the cursor, and the cursor moves past them |
| MappedBuffer.PutStringOutcome | clients/Go/diskq/mbuf.go:153-165 | a string longer than 127 is the "longer than 127" error; a shorter one is written exactly when it fits with its length byte, as that byte followed by the string |
| MappedBuffer.ByteRoundTrip | clients/Go/diskq/mbuf.go:82-89 | round trip: `GetByte` at the position of a successful `PutByte` gives the byte written, and the same cursor |
| MappedBuffer.IntRoundTrip | clients/Go/diskq/mbuf.go:92-209 | round trip: reading `width` bytes where an integer was written gives the integer back (two's complement, big-endian) |
| MappedBuffer.BytesRoundTrip | clients/Go/diskq/mbuf.go:125-220 | round trip: `GetBytes(len(value))` where `PutBytes(value)` wrote gives the same bytes and cursor |
| MappedBuffer.StringRoundTrip | clients/Go/diskq/mbuf.go:135-165 | round trip: `GetString` where `PutString` wrote gives the string back and the same cursor |
| MappedBuffer.OverwriteElsewhere | clients/Go/diskq/mbuf.go:162-217 | bytes outside the written range are left as they were |
| MappedBuffer.GetIntUnaffected | clients/Go/diskq/mbuf.go:92-209 | an integer write does not change a read of bytes that do not overlap it |
| MappedBuffer.SequentialInts | clients/Go/diskq/mbuf.go:179-209 | with the cursor advanced by the width, two integers written one after the other both read back, next to each other |
| MappedBuffer.PutInt32AsWrittenMisaligns | clients/Go/diskq/mbuf.go:190-198 | as written, `PutInt32` twice leaves the second value 24 bytes on, so the 4 bytes after the first value are not the second value |
| MappedBuffer.PutInt32AsWrittenExample | clients/Go/diskq/mbuf.go:190-198 | in a zeroed 48-byte region, writing 1 then 2 with `PutInt32` and reading two `int32`s back gives 1 then 0 |
| MappedBuffer.MappedBuf.constructor | clients/Go/diskq/mbuf.go:24-54 | the region is the file cut or zero-extended to `length` bytes, and the cursor starts at 0 |
| MappedBuffer.MappedBuf.SetPos | clients/Go/diskq/mbuf.go:77-79 | the cursor is set to the given position |
| MappedBuffer.MappedBuf.GetByte | clients/Go/diskq/mbuf.go:82-89 | the result and new cursor are those of `GetByteAt` on the region; on an error the cursor stays |
| MappedBuffer.MappedBuf.GetInt | clients/Go/diskq/mbuf.go:92-122 | the result and new cursor are those of `GetIntAt` on the region; on an error the cursor stays |
| MappedBuffer.MappedBuf.GetBytes | clients/Go/diskq/mbuf.go:125-132 | the result and new cursor are those of `GetBytesAt`; on an error the cursor stays |
| MappedBuffer.MappedBuf.TakeBytes | clients/Go/diskq/mbuf.go:125-132 | the slice is `Take` of the region, and the cursor moves past it only on success |
| MappedBuffer.MappedBuf.GetString | clients/Go/diskq/mbuf.go:135-150 | the result and new cursor are those of `GetStringAt`; on an error the cursor stays |
| MappedBuffer.MappedBuf.Store | clients/Go/diskq/mbuf.go:217 | the array becomes `Overwrite` of its old contents |
| MappedBuffer.MappedBuf.StoreString | clients/Go/diskq/mbuf.go:161-162 | the length byte goes at the cursor and the string after it |
| MappedBuffer.MappedBuf.PutByte | clients/Go/diskq/mbuf.go:168-176 | the region and cursor become those of `PutByteAt`; on an error neither changes |
| MappedBuffer.MappedBuf.PutInt | clients/Go/diskq/mbuf.go:179-209 | the region and cursor become those of `PutIntAt` with the source's own step (2 for `PutInt16`, 24 for `PutInt32` and `PutInt64`); on an error neither changes |
| MappedBuffer.MappedBuf.PutBytes | clients/Go/diskq/mbuf.go:212-220 | the region and cursor become those of `PutBytesAt`; on an error neither changes |
| MappedBuffer.PutStringAt | clients/Go/diskq/mbuf.go:153-165 | a string is stored only at a position inside the region and only when its `int32` length is at most 127 |
| MappedBuffer.PutStringAtKeepsBefore | clients/Go/diskq/mbuf.go:159-162 | a stored string puts its length in the byte at the position; the region keeps its size and every byte before the position |
| MappedBuffer.MappedBuf.PutString | clients/Go/diskq/mbuf.go:153-165 | the region and cursor become those of `PutStringAt`; on an error neither changes |
| GoMessage.StatusText | clients/Go/message.go:12-34 | the reason phrase never holds a CR, so it fits the status line |
| GoMessage.StatusTextOfTable | clients/Go/message.go:12-34 | a code in the table gets its table entry; any other code gets "Unkown Status", spelled as in the source |
| GoMessage.ParseBool | clients/Go/message.go:189 | `strconv.ParseBool`: true for exactly "1", "t", "T", "TRUE", "true" and "True", false for exactly their six opposites, an error otherwise |
| GoMessage.ParseBoolOfFormat | clients/Go/message.go:189-198 | round trip: a bool printed with `%v` parses back to itself |
| GoMessage.EncodingShape | clients/Go/message.go:97-120 | the encoding is the start line, the header lines and the content-length line joined by CRLF, then the blank line, then the body |
| GoMessage.SecondPiece | clients/Go/message.go:148-150 | the value piece holds no `:` |
| GoMessage.ParseLine | clients/Go/message.go:146-152 | a header line without `:` is the panic of `kv[1]`; otherwise the key is lowercase |
| GoMessage.ParseLineIsSplit | clients/Go/message.go:148-150 | the parsed key and value are the trimmed first and second pieces of `strings.Split(s, ":")`, the key lowercased |
| GoMessage.ParseLineOfPair | clients/Go/message.go:147-150 | a line with one `:` gives the trimmed, lowercased text before it as key and the trimmed text after it as value |
| GoMessage.HeaderValueKeepsRune | clients/Go/message.go:150 | a header value ending in a two-byte rune whose last byte is 0xA0 (`voilà`) keeps that byte: `TrimSpace` does not cut inside a rune |
| GoMessage.FieldsOfThree | clients/Go/message.go:138 | three non-empty words joined by single spaces are exactly the three fields of `strings.Fields` |
| GoMessage.RequestLineKeepsRune | clients/Go/message.go:138-144 | the start line `GET /voilà HTTP/1.1` splits into the method, the URL with its two-byte rune whole, and the protocol |
| GoMessage.HeaderOf | clients/Go/message.go:146-152 | the header loop, over the header lines, from the default header: a line without `:` panics; a header that gets through keeps every key it started with |
| GoMessage.HeaderOfSnoc | clients/Go/message.go:146-152 | one more header line updates the map with that line's key and value, the last line winning |
| GoMessage.HeaderOfPanics | clients/Go/message.go:146-152 | the header loop gets through exactly when every line holds a `:` |
| GoMessage.HeaderOfLowerKeys | clients/Go/message.go:146-152 | starting from lowercase keys, every key of the decoded header is lowercase |
| GoMessage.Decode | clients/Go/message.go:130-135 | without a `\r\n\r\n` in the buffer the result is nil; a decoded message was framed at the first blank line |
| GoMessage.LooksLikeHttpIsPrefix | clients/Go/message.go:140 | the start-line test is `HasPrefix(ToUpper(w), "HTTP")` |
| GoMessage.StartOf | clients/Go/message.go:136-145 | a start line of fewer than two words is the panic of `metaFields[1]`; otherwise the message starts from the defaults with no body |
| GoMessage.Framed | clients/Go/message.go:153-165 | the message is incomplete exactly when fewer body bytes are buffered than content-length announces; a decoded one consumes exactly `idx + 4 + bodyLen` bytes, keeps its header, and has a body exactly when the length is positive, that body being the bytes right after the blank line |
| GoMessage.FramedCases | clients/Go/message.go:153-165 | the three outcomes of framing (incomplete, a slice panic for a negative total, decoded), each with its exact condition |
| GoMessage.DecodedKeysAreLowerCase | clients/Go/message.go:146-152 | every header key of a decoded message is lowercase |
| GoMessage.KeptRestricts | clients/Go/message.go:103-109 | the header lines carry exactly the stored keys other than content-length, with their values |
| GoMessage.HeaderOfHeaderLines | clients/Go/message.go:103-109 | decoding the header lines of an encoding gives back the stored entries other than content-length, over the starting map |
| GoMessage.BlankAfterJoin | clients/Go/message.go:108-116 | the first blank line of an encoding is the one after the header block, when no line is empty or holds a CR |
| GoMessage.HeadOfEncoding | clients/Go/message.go:97-120 | in an encoding followed by anything, the blank line is found right after the head, and splitting the head at CRLF gives back its lines |
| GoMessage.StartOfStatusLine | clients/Go/message.go:99 | the status line written for a nonzero status decodes to that status |
| GoMessage.StartOfRequestLine | clients/Go/message.go:101 | the request line decodes to its method and URL when both are single words and the method does not look like `HTTP` |
| GoMessage.DecodeOfEncode | clients/Go/message.go:97-166 | round trip: for headers whose keys and values are trimmed and hold no `:` or line break, decoding an encoding followed by any bytes gives back the status (or method and URL), the headers over the defaults with the computed content-length, and the body, and consumes exactly the encoding |
| GoMessage.DecodeAt | clients/Go/message.go:136-166 | decoding with the header ending at idx: a start line of fewer than two words panics; a decoded message has every default header key and consumes no more bytes than the buffer holds |
| GoMessage.DecodeAtPanicsInHead | clients/Go/message.go:137-152 | a start line of too few words, or a header line without `:`, panics |
| GoMessage.Buffer.constructor | clients/Go/message.go:130-131 | the buffer holds the given bytes |
| GoMessage.Message.constructor | clients/Go/message.go:47-55 | a new message has status 0, URL "/", method GET, the header connection: Keep-Alive, and the formatted body |
| GoMessage.Message.SetBody | clients/Go/message.go:73-75 | only the body changes |
| GoMessage.Message.SetHeaderIfNone | clients/Go/message.go:65-70 | a key already present keeps its value; a missing one is set |
| GoMessage.Message.SetHeader | clients/Go/message.go:176-181 | an empty value changes nothing; any other value is stored under the key |
| GoMessage.Message.GetHeader | clients/Go/message.go:171-173 | a missing key reads as "" |
| GoMessage.Message.Ack | clients/Go/message.go:184-194 | the ack is true when the header is unset or empty, and otherwise exactly when it parses as true, so an unparseable value is false |
| GoMessage.Message.SetAck | clients/Go/message.go:197-199 | the ack header holds "true" or "false", so `Ack()` gives back the value set |
| GoMessage.Message.ReadHeaderLines | clients/Go/message.go:146-152 | the loop gets through exactly when `HeaderOf` does, and leaves the header `HeaderOf` gives |
| GoMessage.Message.EncodeMessage | clients/Go/message.go:97-120 | the buffer gains exactly the encoding of the message for the map's iteration order |
| GoMessage.ReadHead | clients/Go/message.go:136-152 | the message from the head, or null exactly where the source panics in the head |
| GoMessage.ReadBody | clients/Go/message.go:153-162 | the body step agrees with `Framed`: it panics, or completes the message with the framed body and the bytes consumed |
| GoMessage.DecodeFrom | clients/Go/message.go:136-165 | the decoded message, the panic and the bytes consumed are those of `DecodeAt` |
| GoMessage.DecodeMessage | clients/Go/message.go:130-166 | the result is `Decode` of the buffered bytes; a decoded message removes exactly the consumed bytes from the buffer, and otherwise nothing is consumed |
| HttpCodec.ContentTypeOf | src/main/java/io/zbus/net/http/HttpWsServerCodec.java:268-281 | `httpContentType` can throw only on a value that holds `;` |
| HttpCodec.ContentTypeIsTrimmed | src/main/java/io/zbus/net/http/HttpWsServerCodec.java:268-273 | the media type `httpContentType` gives is trimmed and holds no `;` |
| HttpCodec.ContentTypeWithoutParameters | src/main/java/io/zbus/net/http/HttpWsServerCodec.java:268-273 | a value without `;` is its trimmed self as the type, with the default charset utf-8 |
| HttpCodec.ContentTypeWithCharset | src/main/java/io/zbus/net/http/HttpWsServerCodec.java:268-281 | `t; charset=c` gives type t and charset c |
| HttpCodec.ContentTypeOfBareEquals | src/main/java/io/zbus/net/http/HttpWsServerCodec.java:274-278 | a second segment that is a bare `=` throws `ArrayIndexOutOfBoundsException` (`bb2[0]` of an empty split) |
| HttpCodec.ContentTypeOfMissingCharset | src/main/java/io/zbus/net/http/HttpWsServerCodec.java:274-278 | `charset=` without a value throws `ArrayIndexOutOfBoundsException` (`bb2[1]`) |
| HttpCodec.DecodeHeaders | src/main/java/io/zbus/net/http/HttpWsServerCodec.java:181-195 | the loop over the entries gives exactly `HeadersOf` of them, stopping at the first fault |
| HttpCodec.HeaderStep | src/main/java/io/zbus/net/http/HttpWsServerCodec.java:184-194 | one loop step of `decodeHeaders`: a `content-type` entry in any case is split by `httpContentType`, its type stored and its charset stored as `encoding` only when absent; any other entry is stored under its lowercased key |
| HttpCodec.HeaderStepSets | src/main/java/io/zbus/net/http/HttpWsServerCodec.java:184-194 | a step throws exactly on a content-type entry whose value `httpContentType` throws on; a content-type entry sets the type and keeps an existing encoding, or sets the charset; any other entry updates exactly its lowercased key |
| HttpCodec.HeadersOf | src/main/java/io/zbus/net/http/HttpWsServerCodec.java:181-195 | the header map after all entries in order, from an empty map, the first fault ending the loop |
| HttpCodec.HeadersOfFaultSticks | src/main/java/io/zbus/net/http/HttpWsServerCodec.java:183-195 | once a prefix of the entries has thrown, the whole list throws the same |
| HttpCodec.HeadersOfLowerKeys | src/main/java/io/zbus/net/http/HttpWsServerCodec.java:183-195 | every key of the decoded header map is lowercase |
| HttpCodec.HeadersOfFails | src/main/java/io/zbus/net/http/HttpWsServerCodec.java:183-195 | decoding the headers throws exactly when some content-type entry (in any case) has a value `httpContentType` throws on |
| HttpCodec.HeadersOfEncodingFromFirst | src/main/java/io/zbus/net/http/HttpWsServerCodec.java:186-191 | without an encoding header, the encoding comes from the charset of the first content-type entry, and later ones do not replace it |
| HttpCodec.NoEncodingBefore | src/main/java/io/zbus/net/http/HttpWsServerCodec.java:186-191 | with no content-type entry and no encoding entry, decoding succeeds and sets no encoding |
| HttpCodec.SkippedLowerKey | src/main/java/io/zbus/net/http/HttpWsServerCodec.java:116-117 | for a lowercase key, `encode` skips exactly content-type and encoding |
| HttpCodec.EncodeHeaders | src/main/java/io/zbus/net/http/HttpWsServerCodec.java:101-120 | the header list written is the content-type entry, if any, followed by the other headers in iteration order with lowercased keys |
| HttpCodec.CopiedKeys | src/main/java/io/zbus/net/http/HttpWsServerCodec.java:115-120 | the copied headers have lowercase keys and are never content-type or encoding |
| HttpCodec.ContentTypeOut | src/main/java/io/zbus/net/http/HttpWsServerCodec.java:101-112 | a content-type entry is written exactly when the message has a content-type or an encoding header; with an encoding it ends in `; charset=utf-8`; without one it is the content-type header itself |
| HttpCodec.Encoded | src/main/java/io/zbus/net/http/HttpWsServerCodec.java:101-120 | the outgoing list is every copied entry plus one content-type entry, put first, exactly when the message has a content-type or an encoding header |
| HttpCodec.EncodedContentTypeOnce | src/main/java/io/zbus/net/http/HttpWsServerCodec.java:101-120 | the outgoing list has a content-type entry exactly when the message has a content-type or an encoding header; then it is the first entry, it is the single one, and it carries `; charset=utf-8` when there is an encoding; no encoding entry is written |
| HttpCodec.Decode | src/main/java/io/zbus/net/http/HttpWsServerCodec.java:144-178 | a decoded message keeps the request line or status, and has a body exactly when the content is not empty, that body being the content |
| HttpCodec.Encode | src/main/java/io/zbus/net/http/HttpWsServerCodec.java:91-125 | an encoded message keeps the request line or status, and its content is the body, or empty for a null body |
| HttpCodec.DecodeOfEncode | src/main/java/io/zbus/net/http/HttpWsServerCodec.java:71-207 | round trip: a message with plain headers, encoded and decoded again, keeps its start and body (an empty body comes back null) and has its headers normalized |
| HttpCodec.DecodeOfEncodeHeaders | src/main/java/io/zbus/net/http/HttpWsServerCodec.java:101-195 | the header list that `encode` writes decodes to the normalized header map: the other headers kept, the content-type kept or set to text/plain, and the encoding utf-8 once either was present |
| HttpCodec.KeptOfLowerKeys | src/main/java/io/zbus/net/http/HttpWsServerCodec.java:115-120 | the copied entries keep exactly the keys other than content-type and encoding, with their values |
| JsonKit.FixJson | src/main/java/io/zbus/kit/JsonKit.java:112-127 | `fixJson`: brace the input unless it opens with `{`, drop spaces, quote around `:`, `,` and brackets, then unquote where a quote meets a bracket from outside; what it guarantees is stated by the lemmas below |
| JsonKit.FixJsonBraces | src/main/java/io/zbus/kit/JsonKit.java:112-115 | an input that does not open with `{` is first wrapped in braces, so wrapping it by hand changes nothing |
| JsonKit.FixJsonOpensWithBrace | src/main/java/io/zbus/kit/JsonKit.java:112-127 | the result always opens with `{` |
| JsonKit.FixJsonHasNoSpace | src/main/java/io/zbus/kit/JsonKit.java:116-127 | the result holds no space |
| JsonKit.ReplaceLoose | src/main/java/io/zbus/kit/JsonKit.java:116-126 | each replacement acts on the separators of a loose `k:v,k:v` list only, leaving the plain keys and values alone |
| JsonKit.QuotePairs | src/main/java/io/zbus/kit/JsonKit.java:116-120 | the first five replacements turn `{k:v,…}` into `{'k':'v',…'}` |
| JsonKit.QuotedPairsHaveNoBrackets | src/main/java/io/zbus/kit/JsonKit.java:121-124 | the bracket replacements leave a quoted list without brackets as it is |
| JsonKit.QuotedPairsKeepBraces | src/main/java/io/zbus/kit/JsonKit.java:125-126 | the last two replacements leave the quoted list as it is |
| JsonKit.FixJsonOfPairs | src/main/java/io/zbus/kit/JsonKit.java:112-127 | a loose list of plain keys and values comes out as the quoted JSON object of those pairs |
| JsonKit.FixJsonExample | src/main/java/io/zbus/kit/JsonKit.java:112-127 | `a:1,b:2` becomes `{'a':'1','b':'2'}` |
| JsonKit.Convert | src/main/java/io/zbus/kit/JsonKit.java:29-53 | null converts to null and an assignable object to itself; anything else is the object parsed from its string (or its serialization), and when that parse throws, the object parsed from the string after `fixJson`, or that second parse's exception; only that second parse can throw |
| JsonKit.ConvertTwice | src/main/java/io/zbus/kit/JsonKit.java:29-35 | converting a converted value again gives it back, when the parser yields only assignable objects |
| IoZbusBroker.Classify | src/main/java/io/zbus/mq/ZbusBroker.java:19-40 | a null address throws; after trimming, an address that opens with `[` but does not end with `]` is rejected with "… broker address invalid"; brackets are taken off; the broker is a TrackBroker exactly when the address was bracketed or what remains holds `,`, a space or `;`; the stored address is the cleaned one |
| IoZbusBroker.ClassifyOfTrimmed | src/main/java/io/zbus/mq/ZbusBroker.java:21 | the classification ignores surrounding blanks |
| IoZbusBroker.ClassifyOfBracketed | src/main/java/io/zbus/mq/ZbusBroker.java:23-26 | `[list]` is a TrackBroker over `list` |
| IoZbusBroker.ClassifyOfList | src/main/java/io/zbus/mq/ZbusBroker.java:31-33 | `a;b` is a TrackBroker over `a;b` |
| IoZbusBroker.ClassifyOfSingle | src/main/java/io/zbus/mq/ZbusBroker.java:31-39 | a trimmed address with no bracket and no separator is a SingleBroker over itself |
| OrgZbusBroker.Jvm | src/main/java/org/zbus/broker/ZbusBroker.java:40-50 | the JvmBroker is built over the MqServer when there is one, else over the MqServerConfig when there is one, else by default |
| OrgZbusBroker.Unbracketed | src/main/java/org/zbus/broker/ZbusBroker.java:55-57 | a `[`…`]` address loses its brackets, and any other stays as it is |
| OrgZbusBroker.Classify | src/main/java/org/zbus/broker/ZbusBroker.java:38-66 | a null address or `jvm` in any case gives a JvmBroker; otherwise, after trimming, the broker is HA exactly when the whole address is one of the chars `[`, `]`, `,`, ` `, `;` (the `String.matches` test as written), and is otherwise a SingleBroker over the trimmed address |
| OrgZbusBroker.ListIsSingle | src/main/java/org/zbus/broker/ZbusBroker.java:54-64 | as written, every trimmed address of two or more chars that is not `jvm` is a SingleBroker |
| OrgZbusBroker.BracketedListIsSingle | src/main/java/org/zbus/broker/ZbusBroker.java:54-64 | as written, the tracker list `[a;b]` is a SingleBroker named `[a;b]` |
| OrgZbusBroker.ClassifyIntended | src/main/java/org/zbus/broker/ZbusBroker.java:10-21 | as the class comment describes: HA exactly when the trimmed address holds any of the chars, with the brackets taken off |
| OrgZbusBroker.BracketedListIsHa | src/main/java/org/zbus/broker/ZbusBroker.java:10-21 | with the intended test, `[a;b]` is an HaBroker over `a;b` |
| OrgZbusBroker.IntendedAgrees | src/main/java/org/zbus/broker/ZbusBroker.java:54-64 | both tests agree on addresses with none of the chars and on one-char addresses |
| BrokerSelector.GetBroker | src/main/java/org/zbus/broker/ha/DefaultBrokerSelector.java:22-25 | a null address has no broker; otherwise the broker is the table's entry for the address, if any |
| BrokerSelector.GetEntryBroker | src/main/java/org/zbus/broker/ha/DefaultBrokerSelector.java:27-30 | an entry with a null address throws `NullPointerException`; otherwise its broker is looked up as above |
| BrokerSelector.GetMode | src/main/java/org/zbus/broker/ha/DefaultBrokerSelector.java:109-113 | the mode of a set is that of its first entry; an empty set throws `NoSuchElementException` |
| BrokerSelector.SelectByClientHint | src/main/java/org/zbus/broker/ha/DefaultBrokerSelector.java:33-47 | the hinted broker wins when known; otherwise the broker of the first entry of the hinted entry set, if that set exists; an existing empty set throws |
| BrokerSelector.Collect | src/main/java/org/zbus/broker/ha/DefaultBrokerSelector.java:70-75 | the loop throws exactly when some entry has a null address; otherwise it collects brokers of the table only |
| BrokerSelector.CollectPicksInOrder | src/main/java/org/zbus/broker/ha/DefaultBrokerSelector.java:69-75 | the collected list is exactly the brokers of the entries whose address is registered, one per such entry, in entry order |
| BrokerSelector.SelectByRequest | src/main/java/org/zbus/broker/ha/DefaultBrokerSelector.java:55-84 | the request's known broker wins; a null MQ throws; an unknown or empty MQ gives none; a PubSub MQ throws `NullPointerException` exactly when the collecting loop does (an entry with a null address), and otherwise gives none, the list built being dropped (as written); for another mode the result is exactly the broker registered under the MQ name, or none; any broker given is one from the table |
| BrokerSelector.SelectByRequestIntended | src/main/java/org/zbus/broker/ha/DefaultBrokerSelector.java:67-83 | with the collected list returned, a PubSub MQ gives exactly the brokers the loop collects, all from the table |
| BrokerSelector.PubSubListIsDropped | src/main/java/org/zbus/broker/ha/DefaultBrokerSelector.java:67-83 | for a PubSub MQ whose one entry names a known broker, the code as written selects none, while the intended version selects that broker |
| BrokerSelector.IntendedAgreesOutsidePubSub | src/main/java/org/zbus/broker/ha/DefaultBrokerSelector.java:55-84 | outside PubSub mode both versions select the same |
| BrokerSelector.SelectByClient | src/main/java/org/zbus/broker/ha/DefaultBrokerSelector.java:87-91 | a client without a broker attribute gets none; a registered attribute gets its table broker, and any broker given is the table's entry for that attribute |
| BrokerSelector.SelectionsAreRegistered | src/main/java/org/zbus/broker/ha/DefaultBrokerSelector.java:22-91 | every selector hands out only brokers of the broker table |
| HttpRpc.Request.constructor | src/main/java/io/zbus/rpc/http/HttpRpcServerAdaptor.java:62 | a new request has no properties, no command and no parameters |
| HttpRpc.PathRequest | src/main/java/io/zbus/rpc/http/HttpRpcServerAdaptor.java:63-74 | a path of at least one segment sets just the module property to the first one; of at least two, the command to the second; the parameters are the segments after the second, in order, and none for a shorter path |
| HttpRpc.HandleUrlMessage | src/main/java/io/zbus/rpc/http/HttpRpcServerAdaptor.java:53-76 | null exactly for a missing URL, the URL `/` or a message with a body; otherwise a fresh request filled by the parameter loop with exactly `PathRequest` of the path |
| HttpRpc.PathRequestRecoversPath | src/main/java/io/zbus/rpc/http/HttpRpcServerAdaptor.java:63-74 | round trip: the module, the command and the parameters, in that order, give back the path |
| HttpRpc.SourceOf | src/main/java/io/zbus/rpc/http/HttpRpcServerAdaptor.java:28-37 | an HTTP message routed by its URL takes the URL's request; one that is not is parsed from its body; bytes are parsed as JSON; anything else gives a null request |
| HttpRpc.Reply | src/main/java/io/zbus/rpc/http/HttpRpcServerAdaptor.java:34-50 | a request that came as bytes is answered with the bare bytes; every other is answered over HTTP with status 200 and the bytes as body |
| ServerAddress.Empty | src/main/java/io/zbus/transport/ServerAddress.java:8-10 | the default address is null, without SSL or an embedded server |
| ServerAddress.Of | src/main/java/io/zbus/transport/ServerAddress.java:11-13 | the given address, without SSL |
| ServerAddress.OfSsl | src/main/java/io/zbus/transport/ServerAddress.java:15-18 | the given address and SSL flag |
| ServerAddress.ToString | src/main/java/io/zbus/transport/ServerAddress.java:20-23 | with SSL the text is `[SSL]` followed by the address (`null` for a null one); without it, the address itself |
| ServerAddress.StringHash | src/main/java/io/zbus/transport/ServerAddress.java:29 | `String.hashCode` of the address is a Java `int`, and 0 for the empty string |
| ServerAddress.StringHashAppend | src/main/java/io/zbus/transport/ServerAddress.java:29 | appending a char multiplies the hash so far by 31 and adds the char, wrapped to 32 bits |
| ServerAddress.StringHashExample | src/main/java/io/zbus/transport/ServerAddress.java:29 | the hash of `ab` is 97 * 31 + 98 |
| ServerAddress.HashCode | src/main/java/io/zbus/transport/ServerAddress.java:25-32 | the hash is a Java `int` equal, modulo 2^32, to 31 * (31 + hash of the address, 0 for null) + 1231 with SSL or 1237 without |
| ServerAddress.Equals | src/main/java/io/zbus/transport/ServerAddress.java:34-51 | equal exactly to another ServerAddress with the same address (null only to null) and the same SSL flag |
| ServerAddress.EqualsReflexive | src/main/java/io/zbus/transport/ServerAddress.java:34-51 | every address equals itself |
| ServerAddress.EqualsSymmetric | src/main/java/io/zbus/transport/ServerAddress.java:34-51 | equality is symmetric |
| ServerAddress.EqualsTransitive | src/main/java/io/zbus/transport/ServerAddress.java:34-51 | equality is transitive |
| ServerAddress.EqualsIgnoresServer | src/main/java/io/zbus/transport/ServerAddress.java:6 | the embedded server plays no part in equality |
| ServerAddress.EqualsAgreesWithHashCode | src/main/java/io/zbus/transport/ServerAddress.java:20-51 | equal addresses have the same hash code and the same text |
| ServerAddress.HashCodeSeesSsl | src/main/java/io/zbus/transport/ServerAddress.java:30 | switching SSL on always changes the hash code |
| ClientAdaptor.ParseAddress | src/main/java/org/zbus/net/ClientAdaptor.java:41-51 | with the pieces of `split(":")`: more than two is "Address invalid: " + address; none is `bb[0]` out of bounds; otherwise the host is the trimmed first piece, and the port is the second piece as an `int` (a `NumberFormatException` when it is not one) or 80 when there is no second piece |
| ClientAdaptor.ParseOfHostPort | src/main/java/org/zbus/net/ClientAdaptor.java:41-51 | `host:port` gives the trimmed host and that port |
| ClientAdaptor.ParseOfHost | src/main/java/org/zbus/net/ClientAdaptor.java:46-51 | an address without `:` is its trimmed self on port 80 |
| ClientAdaptor.ParseOfTrailingColon | src/main/java/org/zbus/net/ClientAdaptor.java:42-51 | `host:` is port 80, because `split` drops the trailing empty piece, and a lone `:` has no piece at all |
| ClientAdaptor.ParseOfThreePieces | src/main/java/org/zbus/net/ClientAdaptor.java:42-45 | `a:b:c` with a nonempty last piece is rejected, the message naming the address |
| ClientAdaptor.Client.constructor | src/main/java/org/zbus/net/ClientAdaptor.java:21-24 | the client has the parsed host and port, 3000 ms timeouts, no attribute map, no tickets and no handler |
| ClientAdaptor.Client.Attr | src/main/java/org/zbus/net/ClientAdaptor.java:182-188 | without a map every attribute is null; otherwise it is the map's entry |
| ClientAdaptor.Client.SetAttr | src/main/java/org/zbus/net/ClientAdaptor.java:190-205 | a null value removes the key (and creates no map); another value is stored, the map being created first when there was none; afterwards the key reads back as the value, and every other key as before |
| ClientAdaptor.Client.SetMsgHandler | src/main/java/org/zbus/net/ClientAdaptor.java:207-209 | the handler is installed or cleared |
| ClientAdaptor.Client.OnMessage | src/main/java/org/zbus/net/ClientAdaptor.java:305-320 | a response whose id has a ticket goes to that ticket, which leaves the table; otherwise it goes to the handler, or is dropped without one; no ticket for the id remains |
| ClientAdaptor.Client.InvokeAsync | src/main/java/org/zbus/net/ClientAdaptor.java:263-282 | with a callback a ticket is registered under the ticket id, which becomes the request's id, and is removed again when the send throws `IOException`, which propagates; without one the request keeps its id or gets a fresh one; an interrupted send is swallowed |
| ClientAdaptor.Open | src/main/java/org/zbus/net/ClientAdaptor.java:41-68 | the client exists exactly when the address parses, with its host and port and empty state; otherwise the constructor throws the parse failure |
| ClientAdaptor.ReplyReachesTicketOnce | src/main/java/org/zbus/net/ClientAdaptor.java:263-320 | after an asynchronous call, the reply reaches its ticket once, and a second copy goes to the handler |
| ClientAdaptor.FailedSendLeavesNoTicket | src/main/java/org/zbus/net/ClientAdaptor.java:263-320 | after a send that throws, the late reply finds no ticket and, without a handler, is dropped |

## Left out

- Sockets, Netty pipelines and event loops: these are I/O and a foreign library. The same applies to the WebSocket branches and handshake of `HttpWsServerCodec` (`encode` lines 73-82, `decode` lines 131-138, `channelRead`) and to its file-upload path (lines 155-167, 209-265).
- `NewMappedBuf` and `Close` (file creation, truncation, mmap): these are I/O. The `MappedBuf` constructor takes the file's bytes and the length.
- The `CountDownLatch` signalling in `Block.write` (lines 56-57) and the per-queue locking: this is concurrency. Each method is treated as one atomic step.
- The disk `Index` of `Block` is not part of this model. `BlockMaxSize`, the block count and the end offset that `readOffset` returns are inputs to the `Block` constructor, and `writeEndOffset` is the field update.
- Sessions in `MQ`: a session is its id. Which sessions are active, and whose write fails, are inputs (sets of ids), and so is the clock for `lastUpdateTime`.
- The channel readers of `AbstractMessageQueue` (seek with checksum, filters, reading messages) are not part of this model. What `buildChannelReader` gives and whether `seek` returns normally are inputs, and a read is returned as the request it hands to the reader.
- JSON parsing of requests in `MqServerAdaptor` and `HttpRpcServerAdaptor`: the parsed request is an input. The same holds for the authenticator's verdict, for what saving or removing a queue does, and for the RPC processor's serialized response.
- The `MqAdaptor` handlers for route, test, home page, jquery, data, query and heartbeat, which load files, serve pages or report: these are I/O. Only their registration is modelled.
- `MqMode` is not part of this model: its Memory, RPC and PubSub bits are passed in as `ModeBits`. Queue persistence and the `DiskQueue` behind a loaded queue are not modelled either: a loaded queue is its flag.
- `HttpKit.parseUrl` and `UrlInfo` are not part of this model: the parsed URL is an input. `io.zbus.rpc.Request` is modelled only for the fields `handleUrlMessage` sets, and `Request.MODULE` is passed in as `moduleKey`.
- The fastjson library in `JsonKit.convert` is given as parameters: `isAssignableFrom`, `toJSONString` and the parse. The parse stands for JsonKit's own `parseObject(String, Class)`, which includes its retry with `@type` renamed (lines 19-25). The other JsonKit functions are thin wrappers over fastjson and are left out.
- The comparator of `PriorityEntrySet` and `BrokerEntry.PubSub` are not part of this model: an entry set is the sequence of its entries in order, and the PubSub name is an input. `close` of the selector is empty.
- The delegating methods of both `ZbusBroker` classes (`invokeSync`, `close` and the `select…` methods) only forward to the broker chosen by the constructor. The old `ZbusBroker.invokeAsync` (lines 73-75) calls itself without end and forwards nothing, so it is not modelled.
- `ClientAdaptor`'s connecting, `invokeSync`, `ensureConnected`, reconnect threads, heartbeat, `close`, the session lifecycle callbacks (`onSessionConnected`, `onSessionToDestroy`, `onException`) and `toString`: these are I/O and concurrency. `Sync` is not part of this model: the ticket table is a map, and the ticket id and `Ticket.nextId()` are inputs.
- `ClientAdaptor.Client.OnMessage`: the response id is never null here. A response without an id, which the source hands to `Sync.removeTicket` as null, is not modelled.
- `ServerAddress.StringHash`: it sums Dafny chars (Unicode scalar values). That equals Java's `String.hashCode` over UTF-16 code units only for strings within the Basic Multilingual Plane.
- Case folding (`toLowerCase`, `equalsIgnoreCase`, Go's `strings.ToLower`/`ToUpper`) is ASCII-only in this model. Go byte slices and strings are both sequences of chars, one char per byte.
- GoMessage.ParseLineIsSplit: Go's `strings.TrimSpace` and `strings.Fields` decode UTF-8 first, so they also remove the multi-byte spaces U+0085 and U+00A0 (bytes C2 85, C2 A0), U+1680, U+2000 to U+200A, U+2028, U+2029, U+202F, U+205F and U+3000. The model works one byte at a time and treats only tab, newline, vertical tab, form feed, carriage return and space as spaces. A header key or value, or a start-line word, that begins or ends with one of those multi-byte spaces keeps it here, where Go would trim it or split on it (`GoMessage.ParseLine`, `GoMessage.StartOf`). Bytes of 0x80 and above are never spaces on their own, as in Go.
- The Go message's `SetBodyString` (`fmt.Sprintf` formatting), `SetJsonBody` and `String`, and the one-line header accessors built on `GetHeader`/`SetHeader` (lines 201-371), are left out. The constructor takes the formatted body. The `proto` package is not part of this model: `proto.Ack` is passed in as `ackKey`. Go's map iteration order is an input (`order`).
- MappedBuffer.MappedBuf.GetBytes: Go's `GetBytes` returns `b.data[b.pos : b.pos+n]`, a slice that shares storage with the mapped file; the model returns a copy, so a later write through that slice, or to the buffer, is not seen by the other side.
- GoMessage.DecodeMessage: the decoded body is a slice of the `bytes.Buffer`'s storage (`message.go:161`); the model returns a copy, so the sharing between the body and a later refill of the buffer is not captured.
- MqAdaptor.FromUrl: `Message.setJsonBody` is not part of this model; the RPC rewrite sets the body only, and whatever headers `setJsonBody` also sets are not modelled.
- ClientAdaptor.Client.InvokeAsync: `Sync.createTicket` is not part of this model; it is taken to register the ticket under the given ticket id and to stamp that id on the request, which is what lets the response find its ticket.
- MqAdaptor.MqAdaptor.FindMq: `ReplyKit` is not part of this model; its reply is taken to be the request with the status set, so it carries the request's id and body.
- MqAdaptor.MqAdaptor.ProduceMsg: `ReplyKit` is not part of this model; its 200, 403 and 404 replies are taken to be the request with the status set, carrying the request's id and body.
- MqAdaptor.MqAdaptor.ConsumeMsg: `ReplyKit` is not part of this model; its 403 and 404 replies are taken to be the request with the status set, carrying the request's id and body.
- MqAdaptor.MqAdaptor.CreateMqMsg: `ReplyKit` is not part of this model; its replies are taken to be the request with the status set, carrying the request's id and the body `setBody` put there.
- MqAdaptor.CreateMqRequest: `ReplyKit` is not part of this model; a rejection is taken to be the request with the 403 or 400 status and the rejection text as body.
- HttpCodec.ContentTypeOut: `HttpMessage` is not part of this model; its header-name constants `CONTENT_TYPE` and `ENCODING` are taken to be `content-type` and `encoding`.
- ServerMq.DeliveredCopy: `Message.copyWithoutBody` is not part of this model; it is taken to copy the message's headers and status and leave out its body, so the message a consumer receives carries no body. If it instead keeps the body (sharing it rather than cloning it), `DeliveredCopy`, `MQ.Dispatch` and `MQ.Consume` state the wrong body for the delivered message.
- ClientAdaptor.ParseAddress: `Integer.valueOf` accepts any Unicode decimal digit (`Character.digit`); the model's `JavaParseInt` accepts only ASCII `0`-`9`, so a port written in other decimal digits is a number-format failure here where Java accepts it.
- MqAdaptor.CreateMqRequest: for the same reason, an `mq_mode` written in non-ASCII decimal digits is "mq_mode invalid" here where `Integer.valueOf` accepts it.
- Go runtime panics (an index out of range, a slice past its capacity) are an explicit `Panic` outcome rather than a crash.

## Findings

| source | as written | input that shows it | evidently intended | confidence | as-written member | corrected member |
|---|---|---|---|---|---|---|
| src/main/java/org/zbus/broker/ZbusBroker.java:54-61 | `brokerAddress.matches("[\\[\\], ;]")` asks the whole address to be one char of the class (`OrgZbusBroker.Classify`) | `[127.0.0.1:16666;127.0.0.1:16667]`, the class comment's own example, gives a `SingleBroker` named with the brackets | HA with the brackets taken off whenever the address holds `[`, `]`, `,`, a space or `;`, as the class comment (lines 10-21) describes | not executed | OrgZbusBroker.BracketedListIsSingle | OrgZbusBroker.ClassifyIntended |
| clients/Go/diskq/mbuf.go:190-209 | `PutInt32` and `PutInt64` check and advance `n := int32(24)` bytes while writing 4 or 8 (`MappedBuffer.MappedBuf.PutInt`) | in a zeroed 48-byte buffer, `PutInt32(1)`, `PutInt32(2)`, `SetPos(0)`, then `GetInt32` twice gives 1 and 0; a `PutInt32` with fewer than 24 bytes left fails its check although 4 would fit | advance by the width, 4 or 8, as `GetInt32`/`GetInt64` and `PutInt16` do | not executed | MappedBuffer.PutInt32AsWrittenExample | MappedBuffer.SequentialInts |
| src/main/java/org/zbus/broker/ha/DefaultBrokerSelector.java:67-83 | in PubSub mode the loop builds `res` and then falls through to `return null` (`BrokerSelector.SelectByRequest`) | an MQ `q` whose one entry, in PubSub mode, names a registered broker `b`: a request for `q` without a broker gets null | return `res`, the brokers of all the MQ's entries | not executed | BrokerSelector.PubSubListIsDropped | BrokerSelector.SelectByRequestIntended |

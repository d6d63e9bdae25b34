# Order book, MoldUDP64 and ITCH framing: a verified model

This project models the three parts of the repository that carry its state and its wire formats, and
proves what they promise.

- **The order book** (`Pool`, `Level`, `OrderBook`, and the lemma modules `BookLinks`, `BookStructure`).
  `OrderBook.OrderBook` is a class over the same four structures as the program: two price maps of cached
  levels, an id-to-slot map, and a slab whose nodes form one doubly linked queue per level and whose dead
  slots form a free list. Its meaning is `BookModel`: a single list of live orders in order of arrival,
  with no levels, links or slots. Every operation is proved to do to that list what `BookModel.Step` says,
  errors included and whatever the quantities; a ghost flag says whether any cached total ever overflowed.
  `BookEffects` says what each event does and how it is answered in plain values, and `BookRuns`,
  `Interleaving`, `Feed` and `Queries` prove the laws of whole histories.
- **MoldUDP64** (`Packet`, `Chunking`, `DatagramSize`, `Server`, `ServerLaws`, `SessionLaws`, `Learning`,
  `Client`, `Protocol`, `Resources`). The sender loop, the responder and the receive paths are classes whose methods
  are proved against transition functions; the laws about runs are proved about those functions. `Protocol`
  joins server and client by a network that loses, repeats and reorders live packets. `Resources`
  interleaves the client's threads.
- **Framing end to end** (`BigEndian`, `Packet`, `ItchParser`, `Layouts`, `StreamLaws`, `Replay`, `Records`, `Relay`, `Readings`,
  `Consumer`, `Delivery`, `AtLeastOnce`, `Doubling`, `Transport`, `Pipeline`): a file is parsed into batches of
  arbitrary sizes, chunked, packed, passed through the client, and read back packet by packet, while the
  client asks for what it takes to be missing and the responder answers. Whatever happens to the answers,
  the handler is called with every message of the file, in order. It is called exactly as by one parse over
  the whole file for every such delivery if and only if every batch goes out as one packet.

Machine integers are subset types (`Widths`), so every `+` that is stored in one is a proof that it does
not overflow, or wraps around explicitly as a release build does.

Where the documentation promises what the code does not do, the model follows the code, an input shows the
difference, and a condition that can be checked beforehand says exactly when the promise holds:

- The builder documents that packets of other sessions than the expected one are dropped
  (moldudp/src/client.rs:45-46, 101-102); the code follows such a packet and resynchronises
  (client.rs:421-441). `Client.PinnedGapIsLost` is a feed of two heartbeats after which 95 numbers of the
  expected session are neither received nor asked for. `Client.StaysPinnedIff` and
  `Client.OnlyPinnedForwardedIff`: the client keeps to the session exactly when no other packet arrives.
- The expected number is documented as the first one of interest (client.rs:48-50, 104-106), but a client
  that has not seen the session yet asks for nothing before its first packet: `Client.FreshGapIsLost` is one
  heartbeat after which 95 numbers are neither received nor asked for. By `Client.FreshGentleIff` nothing is
  moved past exactly when the first packet comes no later than that number and every later gap can be asked
  for.
- `max_payload` is documented as the limit on the UDP payload of a packet (moldudp/src/server.rs:112-117);
  the code counts message bytes without their length prefixes. `DatagramSize.PayloadLimitIsExceeded` is an
  input, `DatagramSize.AreasWithinIff` and `DatagramSize.PayloadBoundIff` say which bound a configuration
  guarantees, and by `DatagramSize.DocumentedLimitIsNeverGuaranteed` it is never the documented one. With
  the default limit of 1452 an ITCH feed needs 1694.
- All chunks of one `Send`, or of one answer, carry the same sequence number. `Learning.SecondChunkIsMisfiled`
  is an input for which a payload is learnt under the number of another; `Learning.MessagesLearntIff` and
  `Learning.AnswerLearntIff` say exactly when what is learnt is right.
- The consumer is documented to reorder by session and number (moldudp/src/client.rs:470-472), but the
  application parses whatever arrives (app/src/handler.rs:45-99). So after a `Send` of several packets the
  client asks for messages it has passed on already, and the answer is applied a second time.
  `Doubling.TwoEventsThreeCalls` is an input of two messages for which the handler is called three times;
  `Pipeline.Run` says exactly when no delivery does that, and `Pipeline.SmallBatchesFit` names
  configurations for which none does.
- A packet of 65535 messages reads as the end of the session: `Learning.FullSendReadsAsEnd` is an input.
  `Packet.PacketRoundTrip` and `Consumer.ConsumedCompletelyIff` say that this is the only count that does not
  survive. An end of session counts as 65535 messages for the client: by `Client.EndHidesGap` it asks for
  nothing in front of the packets that follow one, unless they are further ahead.
- After `ChangeSession` the responder still answers for the first session only: `ServerLaws.RenamedToB` is an
  input, `ServerLaws.RenamedSessionIsNotServed` says it for every request, and `ServerLaws.AnsweredIff` says
  exactly what is answered.
- A replacement whose new id is taken loses the old order and reports `DuplicateOrder`
  (orderbook/src/book.rs:207-214): `BookRuns.RefusedReplaceLosesOrder` is an input, and by
  `BookRuns.RefusedChangesBookIff` an event is refused and changes the book exactly when it is the
  replacement of a live order under the id of another live one.

## Model

| member | source | states |
|---|---|---|
| Pool.Pool.constructor | orderbook/src/pool.rs:43-48 | an empty slab with an empty free list is valid |
| Pool.Pool.Alloc | orderbook/src/pool.rs:50-65 | the slot handed out was not in use; it is the most recently freed one, and the slab grows only when none is free; every other slot is untouched and the free list stays exact |
| Pool.Pool.Release | orderbook/src/pool.rs:67-71 | the slot becomes the head of a free list that is otherwise the old one; no other slot changes |
| Pool.Pool.Set | orderbook/src/pool.rs:81-87 | an update of a live node keeps the free list exact and cannot hit a freed slot |
| OrderBook.OrderBook.constructor | orderbook/src/book.rs:40-47 | a new book is valid and has no live order |
| OrderBook.OrderBook.Add | orderbook/src/book.rs:53-94 | a new order joins the end of the arrival list, a taken id is `DuplicateOrder` and changes nothing; the slab grows to the number of live orders at most; from exact totals, every cached total is the sum of its level afterwards exactly unless the level's sum passes 2^64 - 1 |
| OrderBook.OrderBook.LinkBehind | orderbook/src/book.rs:73-81 | the order's node ends up in a slot that was not in use, behind the tail, and only the tail's `next` changes besides |
| OrderBook.OrderBook.CountIn | orderbook/src/book.rs:83-90 | exactly one level of one side changes: the order is counted in, with wrap-around, and becomes its tail, and its head when the level is new |
| OrderBook.OrderBook.ExecuteInner | orderbook/src/book.rs:97-153 | the trade prints at the given or the resting price, the order shrinks in place, and leaves exactly when nothing is left, an unknown id or a too large quantity is its exact error and changes nothing |
| OrderBook.OrderBook.Cancel | orderbook/src/book.rs:156-181 | as an execution without a trade, with the errors of a cancel; the order leaves exactly when nothing is left |
| OrderBook.OrderBook.Delete | orderbook/src/book.rs:184-188 | the order leaves whatever its quantity; an unknown id changes nothing |
| OrderBook.OrderBook.Replace | orderbook/src/book.rs:194-215 | the old order leaves, the new one inherits its side and goes to the end of the arrival list, also under the same id; a taken new id loses the old order; the slab does not grow; from exact totals, every cached total is the sum of its level afterwards exactly unless the sum of the level joined passes 2^64 - 1 |
| OrderBook.OrderBook.Bypass | orderbook/src/book.rs:297-303 | the neighbours of a node point past it and nothing else changes |
| OrderBook.OrderBook.CountOut | orderbook/src/book.rs:305-322 | exactly one level changes: the node is counted out, head and tail move off it, and the level goes when its queue is empty |
| OrderBook.OrderBook.Unlink | orderbook/src/book.rs:291-326 | the order in the slot, and no other, leaves the arrival list; its slot joins the free list |
| OrderBook.OrderBook.TakeOff | orderbook/src/book.rs:124-141 | the order keeps its place and loses the quantity, and so does its level |
| OrderBook.OrderBook.Reduce | orderbook/src/book.rs:133-145 | the order shrinks in place, and its id stays known exactly when less than all of it is taken |
| BookLinks.AppendKeepsBook | orderbook/src/book.rs:65-92 | linking a node behind the cached tail of its level keeps all queues, levels and the index representing the longer list |
| BookLinks.RemoveKeepsBook | orderbook/src/book.rs:291-326 | splicing a node out keeps all queues, levels and the index representing the list without that order |
| BookLinks.ResizeKeepsBook | orderbook/src/book.rs:133-141 | a smaller quantity in a node and its level keeps everything representing the list with the amended order |
| BookLinks.AdmitsOrder | orderbook/src/book.rs:67-81 | the cached tail of a level is a live slot, so linking behind it cannot reach a freed one |
| BookLinks.AdmitsRemoval | orderbook/src/book.rs:291-317 | the level of a live order exists and its neighbours are live, so neither `expect` nor `unreachable!` can be reached; unless a total overflowed, the level covers its quantity and the subtraction never saturates |
| BookStructure.LevelIsItsQueue | orderbook/src/level.rs:11-20 | walking `next` from a level's head ends at its tail after exactly `order_count` nodes, which are its queue in time priority; walking `prev` from the tail is the reverse |
| BookStructure.SlotsArePartitioned | orderbook/src/pool.rs:36-40 | following the free list from its head ends and visits exactly the slots of no live order; ids map one to one onto the others; the two together are all slots |
| BookStructure.AggregatesAreExact | orderbook/README.md:99 | in every valid book `order_count` is the number of the orders resting there and no empty level remains; unless a total overflowed, `total_qty` is the sum of their quantities and no order exceeds its level |
| BookModel.QueueMembers | orderbook/src/book.rs:51-52 | a queue holds exactly the live orders of its side and price, each once |
| BookModel.AppendFacts | orderbook/src/book.rs:51-52 | an added order is at the tail of its queue and in no other, and its level grows by its quantity |
| BookModel.IdsAfterResize | orderbook/src/book.rs:155-169 | a partial reduction moves no order in any queue |
| BookModel.IdsAfterDrop | orderbook/src/book.rs:183-188 | a removal closes the gap in its own queue and leaves every other queue as it was |
| BookEffects.ExecuteIsAnswered | orderbook/src/book.rs:95-153 | an execution is refused exactly for an unknown id or too large a quantity, each with its own error, and otherwise trades that quantity at the resting price |
| BookEffects.ExecuteAtIsAnswered | orderbook/src/book.rs:101-153 | the same with the trade at the price given |
| BookEffects.CancelIsAnswered | orderbook/src/book.rs:156-168 | a cancel is refused exactly for an unknown id or too large a quantity, with the errors of a cancel |
| BookEffects.DeleteIsAnswered | orderbook/src/book.rs:184-188 | a deletion is refused exactly for an unknown id |
| BookEffects.AddIsAnswered | orderbook/src/book.rs:53-56 | an order is refused exactly when its id is live |
| BookEffects.ReplaceIsAnswered | orderbook/src/book.rs:194-215 | a replacement is refused for an unknown old id, which the error names, or for a live new id other than the old one |
| BookEffects.TakenOrderLeavesIff | orderbook/src/book.rs:143-145 | an accepted execution or cancel leaves of its order exactly what was not taken, and removes it exactly when that is nothing; every other order stays as it is |
| BookEffects.DeletedOrderLeaves | orderbook/src/book.rs:184-188 | a deletion removes that order and no other |
| BookEffects.AddedOrderRests | orderbook/src/book.rs:53-94 | an accepted order rests as it came, and no other changes |
| BookEffects.ReplacedOrderMoves | orderbook/src/book.rs:194-215 | an accepted replacement removes the old order and rests the new one on its side with the new price, quantity and time |
| BookRuns.TimePriority | orderbook/src/book.rs:190-215 | after any history the queue at any side and price is exactly the live orders there, in the order of their last accepted add or replacement, each with the id, side, price and time of that insert and no more than its quantity, and with quantity 0 only if it was inserted so |
| BookRuns.QuantityIsConserved | orderbook/src/book.rs:113-215 | over any run, what rested plus what was accepted in equals what rests plus what was traded plus what was cancelled, deleted or replaced away |
| BookRuns.RunKeepsDistinct | orderbook/src/book.rs:54-56 | in every reachable book each id is live at most once |
| BookRuns.RefusedChangesBookIff | orderbook/src/book.rs:202-214 | an event is refused and changes the book all the same exactly when it replaces a live order under the id of another live one |
| BookRuns.RefusedReplaceLosesOrder | orderbook/src/book.rs:207-214 | two orders, one replaced under the id of the other: it is gone and the answer is `DuplicateOrder` |
| Interleaving.RunSettlesEachOrder | orderbook/src/book.rs:113-188 | executions, cancels and deletes leave of every order exactly what its own events, applied to it alone, leave |
| Interleaving.RunAnswersEachOrder | orderbook/src/book.rs:113-188 | and they are answered as that order alone would answer them |
| Interleaving.InterleavingIsIrrelevant | orderbook/src/book.rs:113-188 | any interleaving of reductions of different orders leaves the same book and gives the same answers (section 1.4 of Nasdaq TotalView-ITCH 5.0) |
| Interleaving.TakeStep | orderbook/src/book.rs:126-132 | an execution or cancel is accepted exactly when the order is live and large enough |
| Interleaving.ReductionsAddUp | orderbook/src/book.rs:133-145 | two accepted reductions of an order leave the book that one of the summed size leaves, and that one is accepted (section 1.4.1 of Nasdaq TotalView-ITCH 5.0) |
| Feed.Apply | orderbook/README.md:13 | every book event, with its success or exact error, commutes with the meaning of the book, and the slab grows only to the number of live orders |
| Feed.ApplyAll | orderbook/src/book.rs:53-215 | so does every run of events with fewer than 2^32 orders alive at a time, of whatever quantities; the slots used are exactly the peak number of live orders, and every cached total is exact unless one of the events made one overflow |
| Feed.FitsIff | orderbook/src/book.rs:83-90 | from totals within 64 bits an event leads to totals within 64 bits exactly when it fits |
| Feed.AllFitIff | orderbook/src/level.rs:11-20 | all events of a run fit exactly when no level's total ever passes 2^64 - 1, which is when a 64-bit total can be right all along |
| Feed.SmallFeedFits | app/src/handler.rs:276 | a run with the 32-bit quantities of the feed makes no total overflow |
| Feed.SmallFits | app/src/handler.rs:276 | with the 32-bit quantities of the feed the total of a level stays below 2^64, since (2^32 - 1)^2 does |
| Feed.QtyAtBound | orderbook/src/book.rs:89-90 | a level's total is at most 2^32 - 1 times the number of live orders |
| Queries.Best | orderbook/src/book.rs:220-227 | the extreme price of any live order of the side, and none exactly when no order rests on the side; unless a total overflowed, with the sum of all quantities resting there |
| Queries.Depth | orderbook/src/book.rs:242-257 | strictly from best to worst, at most n quotes, missing a quote only when full and then only worse ones; unless a total overflowed, with their exact sums, and with n levels or fewer the quantities add up to all that rests on the side |
| Queries.LevelsAreQuotes | orderbook/src/book.rs:27-29 | the keys of a price map are the prices at which some live order rests |
| Queries.FullDepthIsWholeSide | orderbook/src/book.rs:241-257 | quotes that miss no price account for every resting share of the side once |
| BigEndian.FieldRoundTrips | moldudp/src/packet.rs:73-81 | writing a 16- or 64-bit field and reading it back, and reading it and writing it back, change nothing |
| BigEndian.U16Bytes | moldudp/src/packet.rs:73-81 | a two-byte field is 256 times its first byte plus its second |
| BigEndian.U64Bytes | moldudp/src/packet.rs:73-81 | an eight-byte field is the sum of its bytes, each weighted by the power of 256 of the bytes behind it |
| Packet.Packet.Kind | moldudp/src/packet.rs:184-190 | a count of 0 is a heartbeat, 65535 the end of the session, anything else messages |
| Packet.HeaderFields | moldudp/src/server.rs:296-300 | the session in the first ten bytes, then number and count, most significant byte first |
| Packet.BlockFields | moldudp/src/server.rs:301-305 | the length in two bytes, most significant first, and then the message |
| Packet.Parse | moldudp/src/packet.rs:123-130 | any 20 bytes or more are a packet, and nothing shorter is |
| Packet.ParseLosesNothing | moldudp/src/packet.rs:71-81 | the fields of a parsed packet written out again are its bytes |
| Packet.ParseHeader | moldudp/src/server.rs:309-315 | a written header parses to the fields put in |
| Packet.NextBlockSplits | moldudp/src/packet.rs:265-269 | a block and what follows it are the bytes they were read from |
| Packet.Messages.constructor | moldudp/src/packet.rs:198-206 | iterating starts at the message area with the advertised count, which is 0 for the two special packets |
| Packet.Messages.Next | moldudp/src/packet.rs:259-273 | yields the first of the pending blocks and consumes exactly its bytes, or leaves everything as it is when no block is pending |
| Packet.Collect | moldudp/src/packet.rs:256-281 | iteration ends, and what was yielded and what is left unread are together the message area, byte by byte |
| Packet.BlocksArePrefix | moldudp/src/packet.rs:256-273 | on arbitrary bytes the yielded messages, framed again, are what the bytes start with, and fewer than announced only where no further block is complete |
| Packet.BlocksOfFrame | moldudp/src/packet.rs:256-273 | iterating the frame of any messages yields those messages |
| Packet.BuildPacket | moldudp/src/server.rs:294-307 | the header followed by the frame of the messages; the two 16-bit conversions cannot fail when the count and lengths fit |
| Packet.BuildSpecial | moldudp/src/server.rs:309-315 | a header alone, which parses to a packet with no message area |
| Packet.PacketRoundTrip | moldudp/src/server.rs:294-307 | a built packet parses to its session, number and count, its message area is the frame of the messages, and iterating it yields them exactly when there are not 65535 |
| Chunking.ChunkMessages | moldudp/src/server.rs:564-591 | the loop over pending and finished chunks computes the split that the next three rows are about |
| Chunking.ChunksPartition | moldudp/src/server.rs:564-591 | the chunks concatenate to the input, none is empty, each is a single message or within the limit, and none has room for the first message of the next |
| Chunking.ChunksAreFewest | moldudp/src/server.rs:564-591 | no order-preserving split into such chunks has fewer |
| Chunking.StaysAhead | moldudp/src/server.rs:575-580 | chunk by chunk, the greedy split is never behind any other admissible one |
| Chunking.OneChunkIff | moldudp/src/server.rs:575-588 | all goes into one chunk exactly when it is one message or its total is within the limit |
| Server.PadSession | moldudp/src/util.rs:2-8 | ten bytes: the name, cut off or followed by spaces |
| Server.Server.constructor | moldudp/src/server.rs:237-288 | sender and responder start with the same session and an empty log |
| Server.Server.StoreMessages | moldudp/src/server.rs:317-322 | the loop stores the messages under consecutive numbers, wrapping around after 2^64 - 1 |
| ServerLaws.StoredAt | moldudp/src/server.rs:317-322 | where no number wraps around, exactly the numbers of the range are added, each with its own payload, and all others keep theirs |
| ServerLaws.StoredWraps | moldudp/src/server.rs:317-322 | and where they wrap around, the messages are stored under the numbers ahead of the start, going on at 0 |
| Server.Server.SendPeriodic | moldudp/src/server.rs:327-349 | a heartbeat, or an end-of-session packet once stopped, at the next number, which stays |
| Server.Server.Handle | moldudp/src/server.rs:369-471 | one round of the sender loop is one step of its transition function, in state and in datagrams sent, for every input on which `build_packet` does not panic |
| Server.Server.SenderLoop | moldudp/src/server.rs:351-478 | so is the whole loop over any inputs |
| Server.Server.Select | moldudp/src/server.rs:515-519 | the logged messages from the start on, up to the first missing one or the wanted count |
| Server.Server.Serve | moldudp/src/server.rs:485-551 | the replies to any bytes received as a re-request |
| ServerLaws.LogIsDense | moldudp/src/server.rs:371-429 | after any run that does not use up the numbers, the log has exactly the numbers from the first to the next one, and no payload was ever changed or lost |
| ServerLaws.StoppedSendsOnlyEndOfSession | moldudp/src/server.rs:74-80 | a stopped session never changes again, and all it sends are end-of-session packets at its last number |
| SessionLaws.StoppedIff | moldudp/src/server.rs:458-467 | over any run the sender is stopped exactly when it was at the start or a stop was among its inputs |
| SessionLaws.StopIsFinal | moldudp/src/server.rs:74-80 | after a stop nothing changes any more, whatever is sent to it: session, log and next number are those before the stop, and everything broadcast announces the end at that number |
| SessionLaws.LogIsGiven | moldudp/src/server.rs:371-429 | after any run that does not use up the numbers, the log is exactly the messages sent or dropped before a stop, one behind the other |
| SessionLaws.NumbersWrap | moldudp/src/server.rs:385-386 | every message given to a running sender moves its next number on by one, modulo 2^64, and nothing else does |
| SessionLaws.BroadcastIsTold | moldudp/src/server.rs:371-478 | over any run the message areas of all datagrams broadcast are together one frame of exactly the messages sent before a stop |
| SessionLaws.SpecialIsSent | moldudp/src/server.rs:430-443 | a timeout or heartbeat command broadcasts one heartbeat at the next number, or one end of session once stopped; an end-of-session command one end of session; other commands without messages nothing |
| SessionLaws.MessagesAreSent | moldudp/src/server.rs:380-400 | the packets of a `Send` all carry the number of its first message, each with its count and its messages |
| SessionLaws.EndIsAnnouncedIff | moldudp/src/server.rs:430-443 | over any run a datagram that reads as the end of the session is broadcast exactly when the sender was told to, was stopped and due for a heartbeat, or sent 65535 messages in one packet |
| ServerLaws.SelectionStopsAtGap | moldudp/src/server.rs:515-521 | from any log a re-request selects logged messages under consecutive numbers, and stops short of the wanted count only at a number that is not logged |
| ServerLaws.AnswerIsStamped | moldudp/src/server.rs:523-535 | every packet of an answer is of the responder's session and carries the number asked for |
| ServerLaws.ContiguousIsRange | moldudp/src/server.rs:515-521 | from a dense log a re-request selects exactly the requested range cut off at the next number |
| ServerLaws.LaterLogAnswersAlike | moldudp/src/server.rs:515-521 | a re-request for numbers given out already selects the same from the log of that time and from any later one |
| ServerLaws.RenamedSessionIsNotServed | moldudp/src/server.rs:444-456 | after a change of session no re-request for the new one selects or gets anything |
| ServerLaws.RenamedToB | moldudp/src/server.rs:444-456 | a session renamed from A to B logs a message, and a re-request for it under B gets nothing |
| ServerLaws.AnsweredIff | moldudp/src/server.rs:494-531 | a request is answered exactly when it is a whole header for the responder's first session that asks for at least one message and starts at a logged number |
| Learning.LastMessageLearntIff | moldudp/src/server.rs:380-410 | the packets of any messages teach the last of them under its own number exactly when there is one message or their total is within the limit, and there are not 65535 of them |
| Learning.MessagesLearntIff | moldudp/src/server.rs:380-410 | and exactly then they teach every message under its own number, and nothing else |
| Learning.AnswerLearntIff | moldudp/src/server.rs:515-551 | the answer to a re-request teaches the whole selection under its own numbers exactly under the same condition |
| Learning.ChunksTeach | moldudp/src/server.rs:387-388 | packets of chunks teach numbers within the length of a chunk from the one they all carry, and no others |
| Learning.FullSendReadsAsEnd | moldudp/src/packet.rs:198-206 | 65535 one-byte messages within the limit go out as one packet that reads as the end of the session and teaches nothing |
| Learning.SecondChunkIsMisfiled | moldudp/src/server.rs:387-388 | two messages in two packets: the payload of the second is learnt under the number that the log gives to the first |
| DatagramSize.FrameLength | moldudp/src/server.rs:295 | a message area is the total of its messages and two bytes for each |
| DatagramSize.PayloadLimitIsExceeded | moldudp/src/server.rs:112-117 | three messages in one chunk whose packet exceeds the limit on its payload |
| DatagramSize.AreasWithinIff | moldudp/src/server.rs:112-117 | for messages of any range of sizes and any limit: all message areas stay within a bound exactly when the bound covers the limit filled with as many messages as possible and two bytes for each, or one message alone |
| DatagramSize.PayloadBoundIff | moldudp/src/server.rs:575-580 | for messages of m bytes up to the limit: every `Send` of them can be built and stays within a bound exactly when the bound is at least limit + 2 * (limit / m) |
| DatagramSize.DocumentedLimitIsNeverGuaranteed | moldudp/src/server.rs:112-117 | for every such configuration some messages exceed the limit itself |
| DatagramSize.ItchAreasWithin | moldudp/src/server.rs:112-116 | the bound for an ITCH feed, 1694 bytes with the default limit |
| DatagramSize.BuildableIff | moldudp/src/server.rs:294-307 | for messages of any range of sizes: `build_packet` panics on no `Send` exactly when every message has a 16-bit length and the limit is below 65536 of the shortest |
| DatagramSize.ShortSendIsBuildable | moldudp/src/server.rs:294-307 | whatever the limit, it does not panic on at most 65535 messages of 16-bit lengths |
| DatagramSize.DatagramSizes | moldudp/src/server.rs:577-582 | the exact size of every datagram sent for a list of messages |
| Client.Receiver.Forward | moldudp/src/client.rs:478-499 | a datagram goes into the consumer's channel exactly when there is room, and never displaces another |
| Client.Receiver.Inspect | moldudp/src/client.rs:393-441 | a packet beyond the expected number of the session followed queues one re-request, for the gap or its first 65535 numbers, if there is room; what follows the packet is expected next |
| Client.Receiver.ProcessMulticastDatagram | moldudp/src/client.rs:358-444 | the client follows any packet of at least 20 bytes, asks for the start of the gap in front of it when the packet is of the session it follows and the queue has room, and forwards it; anything shorter changes nothing |
| Client.Receiver.ProcessRereqDatagram | moldudp/src/client.rs:448-475 | a retransmission is forwarded and changes neither expectation nor re-requests |
| Client.Receiver.MulticastRecvLoop | moldudp/src/client.rs:287-325 | over any datagrams, with the other threads emptying the queues at will: expectation, re-requests and datagrams handed over are those of the packets among them, in order, as far as there was room |
| Client.AskedIff | moldudp/src/client.rs:395-419 | a re-request is queued exactly for a packet beyond the expected number of the session followed when there is room; it starts at that number and covers the gap or its first 65535 numbers |
| Client.ExpectsNumberBehind | moldudp/src/client.rs:439-441 | whatever it expected before, any packet makes the client expect the number behind the last message announced, modulo 2^64 |
| Client.EndHidesGap | moldudp/src/client.rs:395-441 | after an end of session the client asks for something in front of a packet exactly when that is more than 65535 numbers ahead and there is room |
| Client.FeedIsCovered | moldudp/src/client.rs:393-441 | under any loss, duplication and reordering, and any other sessions in between: every number of a session from where the client's interest starts up to its highest expectation was carried by a packet handed over, was asked for, or is one it moved past |
| Client.NothingAbandonedIff | moldudp/src/client.rs:397-440 | a packet makes it move past nothing exactly when it carries all it announces and has room, and what is in front of it fits one request with room, or, where the session is not the one followed, was reached before |
| Client.GentleFeedAbandonsNothing | moldudp/src/client.rs:393-441 | a feed of such packets is covered by what was handed over or asked for, after a heartbeat at n everything below n |
| Client.StaysPinnedIff | moldudp/src/client.rs:421-441 | a client told to expect a session stays on it throughout exactly when every packet that arrives is of that session |
| Client.OnlyPinnedForwardedIff | moldudp/src/client.rs:101-102 | only packets of that session are handed over exactly when no other packet finds room |
| Client.PinnedGapIsLost | moldudp/src/client.rs:421-429 | two heartbeats, the first of another session: 95 numbers of the expected session are neither received nor asked for |
| Client.FreshGapIsLost | moldudp/src/client.rs:397-441 | told to expect number 5 of the first session it sees, the client gets a heartbeat at 100: 95 numbers are neither received nor asked for |
| Client.FreshGentleIff | moldudp/src/client.rs:395-441 | such a client moves past nothing exactly when its first packet comes no later than the number expected and from then on every packet is whole and every gap fits one request with room |
| Client.PinnedSessionIsCovered | moldudp/src/client.rs:395-441 | of an expected session, every number from the expected one to the highest reached was handed over, asked for, or moved past, what is lost across other sessions included |
| Client.PinnedFeedIsComplete | moldudp/src/client.rs:395-441 | when all packets are of the expected session, nothing is moved past exactly when every packet is whole and every gap fits one request with room, and then nothing is missing |
| Protocol.SystemRunsSender | moldudp/src/server.rs:351-478 | in every run of the system the sender is where its own inputs lead it, and what is under way is all it broadcast |
| Protocol.SystemRunsClient | moldudp/src/client.rs:287-325 | and the client is where the packets that reached it lead it |
| Protocol.RunKeepsInv | moldudp/src/server.rs:371-410 | in every reachable state, also after changes of session, every datagram in flight and everything the consumer knows agrees with the log, every open re-request for the first session can be answered in full, and every number is accounted for |
| Protocol.AnswerIsLearnt | moldudp/src/server.rs:498-535 | an answer teaches only logged payloads; for the responder's session it teaches the whole range asked for, for another one nothing |
| Protocol.ConsumerHoldsTheLog | moldudp/src/client.rs:395-441 | the consumer never holds anything but the logged payload under a number, also across changes of session; once no re-request for the first session is open it holds every number up to its highest expectation there, except those it moved past and those whose re-request or answer was lost |
| Protocol.CarefulRunsAreComplete | moldudp/src/client.rs:395-441 | and when it moved past none and no re-request was in vain, it holds exactly the server's log from its start to its expectation |
| Resources.ResourcesAreKept | moldudp/src/client.rs:177-249 | under any interleaving of receive loops, senders and consumer: pooled and leased buffers never fall below the initial pool and the pool never exceeds it; every re-request is sent at most once, fails at most the tolerated number of times, and is not sent after the last of these |
| Resources.RequestsAreRetried | moldudp/src/client.rs:214-249 | no re-request is given up early: one that is not around any more was sent, failed the tolerated number of times, or failed when the queue was full |
| Resources.BuffersAreAccountedFor | moldudp/src/client.rs:302-325 | pooled and leased buffers together are at any time the initial ones, plus those allocated when the pool was empty, less those freed when it was full |
| Resources.StepKeepsBuffers | moldudp/src/client.rs:584-590 | every single step keeps the account of the buffers |
| ItchParser.ParseOneIsFirst | itch5/src/parse.rs:180-194 | the parser reads the same framing as the packet iterator: a complete block with a known tag, or the first thing that is wrong |
| ItchParser.TakeOne | itch5/src/parse.rs:180-194 | and always makes progress |
| ItchParser.Parser.ParseStream | itch5/src/parse.rs:131-167 | calls made, rest of the buffer and result are those of the stream, also when the handler stops it |
| ItchParser.StreamSucceedsIff | itch5/src/parse.rs:126-167 | parsing succeeds exactly on the frames of exact bodies, and the calls are those bodies |
| Layouts.DirectorySizes | itch5/src/messages.rs:142-1321 | the sizes of the event, directory, trading status and auction collar messages, field by field |
| Layouts.OrderSizes | itch5/src/messages.rs:1427-1861 | the sizes of the order messages, field by field |
| Layouts.TradeSizes | itch5/src/messages.rs:1916-2445 | the sizes of the trade and imbalance messages, field by field |
| Layouts.KnownTags | itch5/src/parse.rs:184-191 | the known tags are those of these messages |
| StreamLaws.ParseErrors | itch5/src/parse.rs:180-194 | which of the three errors, on the bytes alone: fewer than two, a block cut off or empty, an unknown tag |
| StreamLaws.StreamEnds | itch5/src/parse.rs:131-167 | a parse ends without error exactly when nothing is left behind the messages handed over, and otherwise with the error of what is left, in front of a block that cannot be read and behind one of the wrong size |
| StreamLaws.StoppedStream | itch5/src/parse.rs:160-162 | a handler that asks to stop on a later call gets exactly the calls up to that one |
| StreamLaws.StoppedStreamEnds | itch5/src/parse.rs:160-166 | the parse then ends without error, with everything that was not handed over still in the buffer; with fewer calls it goes as for a handler that never stops |
| StreamLaws.StoppingHandlerMisses | app/src/handler.rs:84-93 | in the receive loop such a handler misses the rest of that packet and nothing else |
| StreamLaws.UnreachedStop | app/src/handler.rs:84-93 | and when it never gets that call, nothing |
| ItchParser.CallsAreFramed | itch5/src/parse.rs:126-167 | on any bytes the calls, framed again, are what the buffer starts with, and all of it exactly when there is no error |
| ItchParser.CallsOfFrame | itch5/src/parse.rs:131-167 | framed bodies in front of a buffer are handed over one by one, and then the rest is parsed |
| ItchParser.CallsAreBodies | app/src/replay.rs:42-63 | when the bodies found by the replay are exact, they are the calls of one parse over the file |
| ItchParser.ExactBodiesFit | itch5/src/parse.rs:203-205 | a body that casts to its message has 12 to 50 bytes, whatever its tag |
| Replay.PickFlushSize | app/src/replay.rs:141-143 | any size from 1 to the maximum |
| Replay.Batch.constructor | app/src/replay.rs:107-113 | a new batch is empty and not yet ready |
| Replay.Batch.Flush | app/src/replay.rs:131-138 | what has gathered is queued as one command, in order, and the batch is empty again |
| Replay.ReplayFile | app/src/replay.rs:14-95 | the queued batches hold 1 to the maximum of messages each, together exactly the messages of the file up to its first framing error, or the first of them after a shutdown; all but the last have the size picked for them; the count returned is theirs |
| Readings.KeptCompletelyIff | app/src/handler.rs:60-71 | a consumer that stops at the end of the session keeps all chunks exactly when no packet reads as that end |
| Readings.HandedIsKept | app/src/handler.rs:45-99 | a handler that takes all messages of a packet is called with those of all packets before the end of the session |
| Relay.SendStaysInStep | moldudp/src/server.rs:380-410 | a `Send` keeps a client in step with the sender exactly when it goes out as one packet |
| Consumer.ConsumeOne | app/src/handler.rs:56-99 | a packet is skipped, ends the loop, or is parsed as a stream of its own, by any handler |
| Consumer.ConsumeAll | app/src/handler.rs:45-99 | any handler gets the packets before the first end of session one after the other, and misses no more than the rest of a packet when it asks to stop |
| Consumer.ConsumedCompletelyIff | app/src/handler.rs:60-92 | the packets of a list of chunks read back as their messages exactly when no chunk has 65535 of them |
| Consumer.ExactChunksAreDeliverable | moldudp/src/server.rs:294-307 | chunks of exact bodies can always be packed and are never taken for the end of the session, for every limit below 12 times 65535 |
| Delivery.AnswerIsConsumed | moldudp/src/server.rs:515-535 | the answer to a re-request that starts at a logged number is parsed into exactly the messages it selects, and there is at least one |
| Delivery.AnswerDoubles | moldudp/src/client.rs:446-475 | an answer among other data leaves the handler calls as they are exactly when it holds no message |
| Delivery.QuietDelivery | moldudp/src/client.rs:395-419 | when no datagram shows a gap, the consumer receives what was sent and nothing else |
| Delivery.GapIsHarmful | moldudp/src/client.rs:395-475 | when one does, some delivery hands over messages twice although nothing was lost |
| Delivery.HarmlessIff | app/src/handler.rs:45-99 | for every fate of re-requests and answers the handler is called with what was sent, exactly when the client never sees a gap |
| AtLeastOnce.DeliveredAtLeastOnce | moldudp/src/client.rs:446-499 | for every fate of re-requests and answers all that was sent is consumed, in order, and nothing that was not sent |
| Doubling.TwoBodiesThreeCalls | moldudp/src/server.rs:380-410 | any two exact bodies that do not fit one packet together, sent at once, and a heartbeat: with the answer the handler is called three times, without it twice |
| Doubling.TwoEventsThreeCalls | app/src/handler.rs:45-99 | for instance two system events of 12 bytes with a limit of 12 |
| Transport.Deliver | moldudp/src/client.rs:177-325 | receive loops, sender threads, responder and consumer at work: however they take turns and however far the consumer lags behind, as long as no live datagram is lost what it receives is one of the deliveries above |
| Transport.Meanwhile | moldudp/src/client.rs:207-273 | any number of re-requests are answered, given up or lost, and packets of answers forwarded, dropped or lost, between two steps of the live thread |
| Pipeline.SendAll | moldudp/src/server.rs:371-410 | with any number of heartbeats in between, what the sender broadcasts for a queue of batches reads back as their messages, and the log holds them under consecutive numbers |
| Pipeline.SmallBatchesFit | app/src/replay.rs:100-139 | batches whose largest possible total is within the payload limit go out one packet each |
| Pipeline.Transmit | app/src/pipeline.rs:40-67 | from a queue of batches to what reaches the consumer: every queued message in order and no other, and for every fate of the answers just the queued messages if and only if every batch goes out as one packet |
| Pipeline.Run | app/src/pipeline.rs:28-67 | file to batches to chunks to packets through the client to the parser, answers included: the handler calls are those of one `parse_stream` over the whole file for every fate of the answers, if and only if every batch goes out as one packet; in any case every message of the file is among them, in order, and no other, and after a shutdown every message queued before it |

## Left out

- `OrderBook::spread`, `mid`, `len`, `is_empty` (orderbook/src/book.rs:229-265): one-line arithmetic on the queries that are modelled.
- The registries (orderbook/src/registry): map facts; `VecRegistry` only behaves for locates in range.
- Dispatch of ITCH messages to book events in app/src/handler.rs, its statistics, and symbols: a handler is modelled as the sequence of bodies it was called with and the call on which it asks to stop.
- ITCH message structs and enums beyond tag and size (itch5/src/messages.rs): a body is bytes whose first one fixes their number.
- Sockets, multicast, io_uring, kernel buffers, threads, locks and time: arrivals, interleavings, timeouts and batch sizes are arbitrary; a socket send that fails is a lost packet.
- Reports, TUI, command line, logging, benchmarks.
- Debug builds: where 64-bit arithmetic overflows they panic; the model wraps around as a release build does.
- OrderBook.OrderBook.Add: a new order needs fewer than 2^32 - 1 live ones, as orderbook/src/pool.rs:62 demands.
- Pool.Pool.Set: a mutable reference to a node is a write of the whole node, and vector and hash map capacities are not modelled.
- Queries.Best: the B-tree is a map, and its iteration order is the ascending order of its keys.
- Server.Server.Handle: a `build_packet` that panics on more than 65535 messages or on a longer message is a precondition (`Server.Accepts`), not a step.
- Server.Server.Serve: the same for its packets.
- Protocol.ConsumerHoldsTheLog: only for the moves in `Protocol.Enabled`, with every `Send` and every answer that arrives in one packet that is not taken for the end of the session, which by `Learning.MessagesLearntIff` is exactly when what they teach is right; no number wraps around.
- Client.Receiver.ProcessMulticastDatagram: the 512 KiB receive buffer is the datagram itself, without the stale bytes behind it; a disconnected channel counts as a full one; the parse failure that stops the loop cannot happen with that buffer.
- Client.Receiver.MulticastRecvLoop: ends with its input where the program waits for more, and the receive error that ends the program's loop is that end.
- Resources.ResourcesAreKept: which buffer or request is where matters, not the order in the queues.
- Packet.Messages.Next: the truncated-packet test of the application compares the announced count with itself (moldudp/src/packet.rs:275-278, app/src/handler.rs:79-80) and is not modelled.
- Replay.ReplayFile: progress counters and log lines; the check for a parser that makes no progress is dead code, since `ItchParser.TakeOne` proves progress. The bounded command queue makes the program wait and is unbounded here.
- Consumer.ConsumeAll: the shutdown flag and the timeout that end the program's loop early are not modelled; they leave a prefix of the calls.
- Delivery.HarmlessIff: live datagrams arrive in order and none is lost, each re-request is answered at most once, and answers come from the log as it is in the end, which by `ServerLaws.LaterLogAnswersAlike` makes no difference for numbers given out before.
- Pipeline.Run: the same, and all sequence numbers fit 64 bits and the handler always continues.

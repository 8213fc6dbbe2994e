# The protocols and algorithms of a C++ portability library, in Dafny

Most of the library wraps sockets, message queues, JSON and file access. Between the wrappers sit a
number of self-contained protocols and algorithms, and this project models those and proves what
they promise. All line numbers below are those of the C++ files.

* **Receive framer** (`Framing`, `ReceiveFramer`, `IoConnection`, `TwoFramers`). A channel receives bytes into a fixed buffer in
  whatever chunks the socket hands over, cuts packets at a delimiter or at a full buffer, and moves
  the pending bytes to the front when the buffer is used up. The class works on the array and its two
  cursors. It is proved to deliver what a byte-at-a-time framer delivers, and that framer is proved to
  compute the only way to cut a stream that meets the description. The second transcription, of the
  I/O connection, is a class of its own and is proved to agree with the first over whole sessions.
* **Channel release** (`ReleaseProtocol`, `ReleaseSafety`, `ReleaseProgress`, `ChannelManager`). A transition system over
  the manager's collection, its command queue, the accepted lists of the listeners and the release
  state of each channel, with an invariant that every step keeps, safety over all runs, and the
  methods themselves proved against it.
* **JSON writer and OID cursor** (`JsonValue`, `JsonWriter`, `JsonCursor`, `JsonRoundTrip`,
  `JsonShape`, `JsonLookup`, `JsonEscape`, `Strings`). A tree written from dotted paths is read back by the cursor value for
  value. The two escape routines compute the same text, which can be read back.
* **Actor** (`Actor`, `Decimal`). Commands and replies travel through two pipes under tickets;
  nothing is lost, doubled or reordered, what a NUL cuts off is stated exactly, and so is the late
  counter.
* **FTP data addresses** (`FtpAddress`), **running mean** (`RunningMean`), **port allocator**
  (`PortAllocator`), **connect deadline** (`ConnectDeadline`) and **image records** (`ImageRecords`,
  `Bitmaps`).

Integer widths are explicit where the program depends on them: counters, tickets, ports, line numbers
and the tick counter wrap at 2^32, the accumulator and the byte counter at 2^64.

## Main results

* `Framer.Pump`, `ChunkingIndependence` and `FramingIsUnique`: what is delivered depends on the stream
  alone, and is its only framing; `TwoFramers.RunBoth`: both transcriptions deliver it.
* `ReleaseOnlyMovesForward`, `HandlerFindsPending`, `AlwaysAccountedFor`, `AcceptAlwaysSucceeds` and
  `ListenerClosesAll`: the release protocol is safe in every run; `RemovedIsClosed`: it can always end.
* `RoundTrip`, `ComesBackIff` and `NothingElse`: what is written under an OID is read back, and nothing
  else is in the tree; `FirstThroughObjects` and `ThroughTwoArrays`: the cursor on any tree.
* `UnescapeInverts`, `ValidUnlessControl` and `EscapeToBuffer`: escaping is reversible, and the fast
  routine computes the same.
* `NothingLost`, `RepliesInOrder` and `CounterIsExactIff`: the actor conserves commands and replies.
* `PortRoundTrip` and `PasvRoundTrip`, `MeanInBounds`, `PortsDistinct` and `InRangeIff`,
  `EngineIsFirstIff`, `TopDownTilesIff`, `BottomUpRightIff` and `TopDownBitmapIff`.

## Assumptions

* The step granularity of the release protocol is the one stated at the head of `ReleaseProtocol`:
  removing a channel is one step, a drain is open until the queue is empty, close callbacks fire only
  between drains and accepts because the event loop runs all three on one thread, and closing a handle
  twice is closing it once (`oldies/uvw-1.8.1_libuv-v1.20/src/uvw/handle.hpp:139-143`).
  `EarlyCallbackMovesBack` shows that the forward-only claim is false without it.
* Only the manager sends the release command. `SendAsyncReleaseResourceCmd` is public
  (`oldies/bofsocketchannelmanager.h:280`), so "at most one release per channel" and "the handler finds
  PENDING" rest on clients not calling it themselves; `OutsideReleaseFindsIdle` shows what happens else.
* What the program learns from outside is a parameter: the answers of the read callback (`verdict`),
  the size of each read (`burst`), whether the queue takes a command (`room`), whether a channel is
  connected and a command late (`answer`, `connected`, `expired`), the actor function (`work`), the
  time (`now`).
* A JSON array is a sequence in which missing elements are null, and the text layer of jsoncpp is the
  identity. Indexing follows `oldies/jsoncpp-1.8.0/src/lib_json/json_value.cpp:977-991` and
  `oldies/jsoncpp-1.8.0/src/lib_json/json_value.cpp:1050-1071`.
* The macros that update a minimum and a maximum and the layout of the statistic that
  `oldies/bofstatistics.cpp` uses are not part of the repository; they are taken as the usual
  minimum and maximum and a reset to zero.

## Where the code does less than one would expect

* The writer drops an OID with more than seven tags without an error (`ComesBackIff`).
* An OID that ends at an array leaves the parser in a state in which the next call reads past its list of
  tags (`NextBehindBareArray`), and no OID leads through more than three arrays (`AtMostThreeArrays`).
* The escape routines leave control characters other than \b \f \n \r \t as they are
  (`ValidUnlessControl`).
* The pending counter of the actor can go below zero and wrap while the actor reports that no command
  is running, because the flag is reset before the counter is bumped (`CounterGoesBelowZero`,
  `IdleCounterIsExactIff`, `ReplyPendingIff`).
* The port allocator leaves out the first port in its first round and the second port in every later
  one, and two kinds of arguments make it leave its range (`PortsRepeat`, `InRangeIff`).
* The engine misses the caller's deadline when a tick falls exactly on the start of the margin and is
  served just before the command is dequeued (`EngineIsFirstIff`, `TickOnMarginSpoils`).
* The last bottom-up record of an image that it does not divide has the wrong lines (`PartialWindow`,
  `BottomUpRecordIff`), and bottom-up records past the end are accepted up to twice the height
  (`BottomUpPastEnd`).
* Heights from 2^31 on are read in part only (`TopDownTilesIff`, `BottomUpRightIff`).
* The BMP loader passes bits where bytes per pixel are expected, so eight rows of a bitmap count as one
  line while its height counts rows (`LineIsEightRows`). The first record of an ordinary bottom-up bitmap
  always fails (`BottomUpBitmapFails`). A top-down bitmap, whose negative height is passed on as a 32-bit
  number, is read in full exactly when its rows are eight times a whole number of records
  (`TopDownBitmapIff`, `Bitmap480`, `Bitmap484`).
* Commands and answers go through the actor's pipes as C strings. A NUL cuts off the rest and the ticket
  (`ArrivesIff`, `SecondTicketIsLost`), and a command that starts with $TERM and a NUL ends the worker
  (`TermIff`).
* PORT and PASV numbers are not checked to be octets; only the two port numbers are cut to a byte
  (`DecodePrinted`).

## Model

| member | source | states |
|---|---|---|
| `Framing.ChunksAsOneStream` | oldies/bofsocketchannel.cpp:398-534 | In both cutting modes any sequence of reads delivers, and leaves pending, what the reference framer does on the unsplit stream. |
| `Framing.ChunkingIndependence` | oldies/bofsocketchannel.cpp:398-534 | Two chunkings of one stream deliver the same packets and leave the same bytes pending. |
| `Framing.FeedIsFraming` | oldies/bofsocketchannel.cpp:462-530 | The packets and the pending bytes together are the stream; every packet ends at the first delimiter or at the buffer size, and the pending bytes hold no such place. |
| `Framing.FramingIsUnique` | oldies/bofsocketchannel.cpp:462-530 | A way to cut a stream meets the description if and only if it is the one the framer computes. |
| `Framing.WhenFullBlocks` | oldies/OnReadyRead.cpp:137-154 | In WHEN_FULL mode the packets are the consecutive blocks of the buffer size and the rest is pending. |
| `Framing.AsapConserves` | oldies/OnReadyRead.cpp:122-136 | In ASAP mode the packets are the non-empty reads one by one, so nothing is lost or reordered. |
| `Framing.NeverDelivers` | oldies/bofsocketchannel.cpp:424-428 | In NEVER mode no read ever delivers a packet, and nothing is kept of it. |
| `ReceiveFramer.EveryPacketCountedOnce` | oldies/bofsocketchannel.cpp:429-514 | The two packet counters are the numbers of accepted and of refused packets, which add up to all, and the byte counter is the total size of the accepted ones and of no other. |
| `ReceiveFramer.Framer.GetBuffer` | oldies/bofsocketchannel.cpp:398-405 | The room offered starts at the write cursor, ends with the buffer, and is never empty. |
| `ReceiveFramer.Framer.Deliver` | oldies/bofsocketchannel.cpp:758-768 | The packet is handed over, and the three counters are again the accepted, refused and accepted-byte totals at their widths. |
| `ReceiveFramer.Framer.CutAtDelimiters` | oldies/bofsocketchannel.cpp:469-496 | The do/for nest ends, having delivered the packets of the reference framer on the new bytes. |
| `ReceiveFramer.Framer.Compact` | oldies/bofsocketchannel.cpp:515-526 | The overlapping move keeps every pending byte. |
| `ReceiveFramer.Framer.MakeRoom` | oldies/bofsocketchannel.cpp:498-527 | A full buffer is one packet or is compacted; afterwards there is room and the pending bytes are those of the reference framer. |
| `ReceiveFramer.Framer.ReadyDelimited` | oldies/bofsocketchannel.cpp:462-530 | WHEN_FULL_OR_DELIMITER_FOUND agrees with the reference framer on the new bytes; afterwards D <= W < N and the pending bytes hold no delimiter. |
| `ReceiveFramer.Framer.OnReadyRead` | oldies/bofsocketchannel.cpp:407-534 | In every mode and for every count the new state is the specification of one read applied to the old one; the validity that keeps every assertion true holds again. |
| `ReceiveFramer.Framer.Read` | oldies/bofsocketchannel.cpp:398-534 | Storing a chunk where GetBuffer offered and reporting it is one read of that chunk, whatever the callback answers. |
| `ReceiveFramer.Framer.Pump` | oldies/bofsocketchannel.cpp:398-534 | A whole session always consumes its stream, and what it delivers depends on the stream alone. |
| `IoConnection.Connection.GetBuffer` | oldies/ibofioconnection.cpp:327-334 | The room of an I/O connection starts at its write cursor and is never empty. |
| `IoConnection.Connection.ScanForDelimiters` | oldies/OnReadyRead.cpp:40-59 | The do/for nest of the second transcription ends, having delivered the packets of the reference framer. |
| `IoConnection.Connection.MakeRoom` | oldies/OnReadyRead.cpp:61-81 | Its full buffer is one packet or is compacted, as in the reference framer. |
| `IoConnection.Connection.OnReadyRead` | oldies/OnReadyRead.cpp:1-88 | In each of its three modes and for every count the new state is the specification of one read. |
| `TwoFramers.RunBoth` | oldies/OnReadyRead.cpp:1-227 | From the same state and over any sequence of reads of a whole stream, the two transcriptions deliver the same packets and hold the same bytes in each mode they share, whatever the callbacks answer. |
| `TwoFramers.RunApart` | oldies/OnReadyRead.cpp:1-227 | In the cutting modes they do so even if each reads the stream in chunks of its own. |
| `ReleaseSafety.RemoveCore` | oldies/bofsocketchannelmanager.cpp:375-412 | RemoveChannel keeps the invariant, moves no release state back, and takes the channel out of the collection and out of IDLE. |
| `ReleaseSafety.ExecuteKeeps` | oldies/bofsocketchannel.cpp:1499-1591 | Executing any command of a drain, a disconnect ahead of a release included, keeps the invariant and moves nothing back. |
| `ReleaseSafety.ExecuteClosesIff` | oldies/bofsocketchannel.cpp:1515-1571 | In every run, a handle that was not closing closes on a command if and only if that is a release of its channel, or a disconnect of it without reuse, connected and in time; any other command leaves the channel as it was. |
| `ReleaseSafety.RemoveQueuesRelease` | oldies/bofsocketchannelmanager.cpp:388-405 | In every run, removing an idle channel queues its release behind everything else unless the queue refuses it. |
| `ReleaseSafety.AddedAsGiven` | oldies/bofsocketchannelmanager.cpp:309-373 | In every run a channel is added exactly when there is room, idle and with the backlog it was given; an accepted client has none and knows its listener. |
| `ReleaseSafety.ClosedEnds` | oldies/bofsocketchannel.cpp:997-1006 | After its close callback the channel is CLOSED and in no accepted list. |
| `ReleaseSafety.ListenerClosesAll` | oldies/bofsocketchannel.cpp:731-756 | Afterwards the accepted list is empty, and the listener and every client it had are out of the collection and not IDLE, also those removed before. |
| `ReleaseSafety.StepKeeps` | oldies/bofsocketchannelmanager.cpp:173-412 | Every step from a state with the invariant keeps it and moves no release state back. |
| `ReleaseSafety.RunKeeps` | oldies/bofsocketchannelmanager.cpp:173-412 | Every state of every run has the invariant. |
| `ReleaseSafety.ReleaseOnlyMovesForward` | oldies/bofsocketchannelmanager.cpp:387-405 | Between any two moments of any run no release state moves back and no channel disappears. |
| `ReleaseSafety.HandlerFindsPending` | oldies/bofsocketchannelmanager.cpp:288-295 | In every run the release handler only runs on a PENDING channel. |
| `ReleaseSafety.AlwaysAccountedFor` | oldies/bofsocketchannelmanager.cpp:309-412 | At any moment of any run: at most one release was queued per channel, an IDLE channel is managed, both limits hold, and a listed client is managed or not IDLE, and never CLOSED. |
| `ReleaseSafety.AcceptAlwaysSucceeds` | oldies/bofsocketchannel.cpp:1241-1248 | In every run the AddAcceptedChannel call of an accept appends the client. |
| `ReleaseSafety.NothingStuck` | oldies/bofsocketchannelmanager.cpp:188-239 | With an empty queue and no callback due, a channel is IDLE or CLOSED unless the queue refused its release. |
| `ReleaseProgress.RemovedIsClosed` | oldies/bofsocketchannelmanager.cpp:188-239 | From every state of every run, the loop's own steps lead a removed channel whose release was not refused to CLOSED, and off every list. |
| `ReleaseSafety.MidDrainIsReachable` | oldies/bofsocketchannel.cpp:1557-1571 | A run leads to a drain in which the disconnect has closed the handle and the release comes next. |
| `ReleaseSafety.EarlyCallbackMovesBack` | oldies/bofsocketchannel.cpp:997-997 | If the close callback could fire in that moment, the release would move a CLOSED channel back to CLOSING. |
| `ReleaseSafety.OutsideReleaseFindsIdle` | oldies/bofsocketchannelmanager.h:280-281 | A release that a client queues itself is executed on an IDLE channel, which is then CLOSING and still managed. |
| `ChannelManager.DrainReleases` | oldies/bofsocketchannelmanager.cpp:188-239 | A drain empties the queue, keeps the invariant, and leaves each channel whose release was queued CLOSING. |
| `ChannelManager.Manager.SendCommand` | oldies/bofsocketchannelmanager.cpp:570-606 | The command is appended if the queue takes it; nothing else changes. |
| `ChannelManager.Manager.Add` | oldies/bofsocketchannelmanager.cpp:309-339 | Refused if and only if the manager is full; otherwise the channel is managed, idle, with its backlog. The invariant holds. |
| `ChannelManager.Manager.Remove` | oldies/bofsocketchannelmanager.cpp:375-412 | RemoveChannel does its step of the transition system and keeps the invariant. |
| `ChannelManager.Manager.RemoveAcceptedClient` | oldies/bofsocketchannel.cpp:707-729 | RemoveAcceptedChannel does its step, keeps the invariant, and reports whether the client was listed. |
| `ChannelManager.Manager.OnTcpCloseEvent` | oldies/bofsocketchannel.cpp:971-1010 | The close callback does its step and keeps the invariant. |
| `ChannelManager.Manager.BeginAcceptClient` | oldies/bofsocketchannel.cpp:1165-1200 | The client is managed exactly when the backlog and the manager have room, and a place in the list is then reserved. |
| `ChannelManager.Manager.EndAcceptClient` | oldies/bofsocketchannel.cpp:1243-1244 | Behind the callback the client is always appended to the list, whatever was done in between. |
| `ChannelManager.Manager.OnTcpListenEvent` | oldies/bofsocketchannel.cpp:1140-1257 | With a callback that touches no channel, the client joins both lists or nothing changes. |
| `ChannelManager.Manager.CloseListenerAndClients` | oldies/bofsocketchannel.cpp:731-756 | Refused for a channel without a backlog; otherwise the loop ends with the list empty and the listener and all its clients released. |
| `ChannelManager.Manager.OnAsyncEvent` | oldies/bofsocketchannelmanager.cpp:173-243 | The loop ends with the queue empty, in the state of a whole drain, with the invariant. |
| `JsonValue.PutGet` | oldies/jsoncpp-1.8.0/src/lib_json/json_value.cpp:1050-1071 | A write along a path succeeds if and only if the path fits the tree, and is then read back. |
| `JsonValue.PutElsewhere` | oldies/bofjsonwriter.cpp:125-338 | A write changes nothing on a path that diverges from it. |
| `JsonValue.IndexingThrowsIff` | oldies/jsoncpp-1.8.0/src/lib_json/json_value.cpp:977-991 | Indexing by name throws exactly on a value that is neither null nor an object, by number exactly on one that is neither null nor an array. |
| `JsonValue.PutThroughText` | oldies/jsoncpp-1.8.0/src/lib_json/json_value.cpp:1050-1071 | A path through a text written before is refused. |
| `JsonWriter.TagsAreNames` | oldies/bofjsonwriter.cpp:128-132 | The tags of an entry are the dot-separated names of its path and its own name. |
| `JsonWriter.WriteEntry` | oldies/bofjsonwriter.cpp:125-338 | The loop over an entry puts each of its values in its slot, or throws where a slot does not fit. |
| `JsonWriter.FromByte` | oldies/bofjsonwriter.cpp:111-348 | The loop over the schema builds the tree of the whole schema, or ends with the first exception. |
| `JsonCursor.Parser.GetFirst` | oldies/bofjsonparser.cpp:440-584 | The result and the cursor fields are those of the walk along the tags. |
| `JsonCursor.Parser.GetNext` | oldies/bofjsonparser.cpp:586-636 | The result and the cursor fields are those of one step in the array at hand. |
| `JsonRoundTrip.TreeOfSchema` | oldies/bofjsonwriter.cpp:125-338 | A schema without conflicts is written without an exception; every slot holds its value, and null past the last one. |
| `JsonShape.NothingElse` | oldies/bofjsonwriter.cpp:125-338 | In the tree of a schema without conflicts a member or an element exists if and only if a value of the schema needs it. |
| `JsonShape.ArrayIsAsLong` | oldies/bofjsonwriter.cpp:125-338 | The array of a column is exactly as long as the longest column of the same array. |
| `JsonShape.PutCreates` | oldies/jsoncpp-1.8.0/src/lib_json/json_value.cpp:977-991 | A write where there was nothing creates the parts on the way to it, and the elements in front of those, and nothing else. |
| `JsonRoundTrip.NextReadsCell` | oldies/bofjsonparser.cpp:586-636 | In front of a cell that holds a text, a number or a boolean the next call returns it as text and moves on; in front of an empty one it returns nothing, now and later. |
| `JsonRoundTrip.CallAnswers` | oldies/bofjsonparser.cpp:440-636 | On any tree that holds given texts, numbers or booleans of an entry, call number m returns the m-th as text, and nothing from the end on. |
| `JsonLookup.FirstThroughObjects` | oldies/bofjsonparser.cpp:463-580 | On any tree, where the tags lead through objects: a text, number or boolean at the end is returned as text, one in front of the end is an error, a missing value or a container at the end is nothing. |
| `JsonLookup.NextBehindBareArray` | oldies/bofjsonparser.cpp:586-594 | An OID that ends at an array finds nothing, and the next call reads past the list of tags. |
| `JsonLookup.ThroughTwoArrays` | oldies/bofjsonparser.cpp:476-538 | An OID through two arrays reads the inner array of the outer one's first element, one value per call and then nothing. |
| `JsonLookup.AtMostThreeArrays` | oldies/bofjsonparser.cpp:483-487 | A value behind arrays within arrays is found if and only if there are at most three of them. |
| `JsonRoundTrip.RoundTrip` | oldies/bofjsonparser.cpp:440-636 | For every schema without conflicts and every entry the first and next calls return the written values in index order and then nothing, however long a sibling column is. |
| `JsonRoundTrip.ComesBackIff` | oldies/bofjsonwriter.cpp:160-325 | All values of an entry come back if and only if its OID has at most seven tags or it has no value. |
| `JsonRoundTrip.ReadAll` | oldies/bofjsonparser.cpp:440-636 | A client that reads until nothing comes gets exactly the values of the OID. |
| `JsonRoundTrip.WriteThenRead` | oldies/bofjsonwriter.cpp:111-348 | Writing a schema and reading one of its OIDs with the methods gives its written values. |
| `JsonEscape.UnescapeInverts` | oldies/bofjsonwriter.cpp:367-407 | Escaped text, read by the rules of section 7 of RFC 8259, is the original. |
| `JsonEscape.EscapeLength` | oldies/bofjsonwriter.cpp:367-407 | The output is at most twice the input and holds a NUL only if the input does. |
| `JsonEscape.ValidUnlessControl` | oldies/bofjsonwriter.cpp:367-407 | The output is a valid string body of section 7 of RFC 8259 if and only if every control character of the input is one of \b \f \n \r \t. |
| `JsonEscape.EscapesNothingElse` | oldies/bofjsonwriter.cpp:367-407 | A text is its own escape if and only if it holds no quotation mark, no backslash and none of those five. |
| `JsonEscape.EscapeToString` | oldies/bofjsonwriter.cpp:367-407 | The string version returns the escaped text up to the first NUL, and nothing for a null pointer. |
| `JsonEscape.EscapeToBuffer` | oldies/bofjsonwriter.cpp:409-461 | With two pointers the buffer receives the text of the string version and a NUL; with one missing nothing changes. |
| `Actor.ParseCompose` | oldies/bofactor.cpp:96-108 | Text and ticket of a message are found again, also when the text holds separators. |
| `Actor.AtoiMinus` | oldies/bofactor.cpp:100-100 | A negative number behind the separator becomes a ticket that goes round at 2^32. |
| `Actor.ArrivesIff` | oldies/bofactor.cpp:137-138 | Text and ticket arrive as they were sent if and only if the text holds no NUL, at which the C string ends. |
| `Actor.NulDropsTicket` | oldies/bofactor.cpp:137-138 | The failing input: "a", a NUL and "b" arrive as "a" under ticket 0. |
| `Actor.TermIff` | oldies/bofactor.cpp:89-93 | A client's command ends the worker if and only if its text starts with $TERM and a NUL. |
| `Actor.StepKeeps` | oldies/bofactor.cpp:80-121 | Every step of client and worker keeps the conservation, numbering and counting invariant, whatever becomes of a text in a pipe. |
| `Actor.RunKeeps` | oldies/bofactor.cpp:80-176 | Every state of every run has that invariant. |
| `Actor.RepliesInOrder` | oldies/bofactor.cpp:147-176 | In every run the k-th reply read is what arrives of the answer to what arrived of the k-th command; command and answer are whole and under the command's ticket if and only if neither holds a NUL, and the tickets of such commands increase strictly. |
| `Actor.WorkerEndsIff` | oldies/bofactor.cpp:86-93 | In every run the worker ends exactly on a command that starts with $TERM and a NUL, and never answers one. |
| `Actor.SecondTicketIsLost` | oldies/bofactor.cpp:96-112 | On the actor itself: a NUL in the second of two commands makes its reply come back under ticket 0. |
| `Actor.NothingLost` | oldies/bofactor.cpp:80-176 | In every run each command sent with success is queued, in the worker's hand, unread or read, in the place its number says, and nothing else is under way; without NULs no other place can be taken for it. |
| `Actor.CounterIsExactIff` | oldies/bofactor.cpp:116-120 | In every run the counter is the number of unread replies if and only if the uncounted reply and the interrupted waits cancel out on 32 bits. |
| `Actor.IdleCounterIsExactIff` | oldies/bofactor.cpp:116-120 | While no command is reported running and no wait was interrupted, the counter is exact if and only if the worker is not between the reset of the flag and the bump. |
| `Actor.ReplyPendingIff` | oldies/bofactor.cpp:178-186 | With no interrupted wait, IsReplyPending tells the truth if and only if no reply is uncounted or at least two are unread. |
| `Actor.CounterGoesBelowZero` | oldies/bofactor.cpp:116-120 | A run in which the actor looks idle, no reply waits and the counter has wrapped. |
| `Actor.ActorImplementation.SendCommandToActor` | oldies/bofactor.cpp:129-145 | The command is queued behind the others under a ticket no other command has; a failed send uses up a ticket and leaves the pipe and the commands sent as they were. |
| `Actor.ActorImplementation.WaitForReplyFromActor` | oldies/bofactor.cpp:147-176 | The reply is that to the oldest command without a read one, whole and under its ticket without NULs; an interrupted wait gives an empty text, takes no reply, and lowers the counter all the same. |
| `Actor.ActorImplementation.OnProcessing` | oldies/bofactor.cpp:69-127 | The queued commands in front of the first that ends the worker are answered in order and counted; without such a one all are. |
| `FtpAddress.DecodePrinted` | oldies/bofiocmdchannel.cpp:269-296 | Six printed numbers amid text without digits are found, and decoded if and only if each fits an int; otherwise std::stoi throws. The port is made of two low bytes. |
| `FtpAddress.NoMatchIff` | oldies/bofiocmdchannel.cpp:269-285 | There is no match if and only if the text holds a line end or no place of it has six numbers. |
| `FtpAddress.LeftmostIff` | oldies/bofiocmdchannel.cpp:269-285 | The match is that of the first place that has six numbers. |
| `FtpAddress.Code227Iff` | oldies/bofiocmdchannel.cpp:328-344 | A reply has code 227 if and only if it starts with those digits and has a fourth character. |
| `FtpAddress.NoAddressOtherwise` | oldies/bofiocmdchannel.cpp:193-205 | A reply with another code, or a command other than PORT, gives no address. |
| `FtpAddress.JoinIsSplit` | oldies/bofiocmdchannel.cpp:259-259 | The printed numbers stand between commas. |
| `FtpAddress.PortRoundTrip` | oldies/bofiocmdchannel.cpp:423-438 | The server decodes every address and 16-bit port that a client prints in PORT (section 4.1.2 of RFC 959). |
| `FtpAddress.PasvRoundTrip` | oldies/bofiocmdchannel.cpp:450-462 | The client decodes every address and 16-bit port that a server prints in its 227 reply, once the code is stripped. |
| `RunningMean.WrapTestIsExact` | oldies/bofstatistics.cpp:52-82 | The wrap test fires exactly when the true sum does not fit in 64 bits. |
| `RunningMean.UpdateDescribes` | oldies/bofstatistics.cpp:119-131 | One more sample keeps the description: true minimum and maximum, item count at most the accumulator, mean of the accumulator, and the true sum as long as it fits. |
| `RunningMean.Feed` | oldies/bofstatistics.cpp:97-131 | After any sequence of 64-bit samples the statistic describes it. |
| `RunningMean.MinMaxAreTight` | oldies/bofstatistics.cpp:119-131 | Min and Max are samples and bound all of them. |
| `RunningMean.MeanInBounds` | oldies/bofstatistics.cpp:52-82 | After at least one sample Min <= Mean <= Max, across any number of accumulator resets. |
| `RunningMean.MeanStays` | oldies/bofstatistics.cpp:70-78 | A zero, and a sample that would overflow the accumulator, leave the mean as it was; after an overflow the accumulator holds that mean alone. |
| `RunningMean.MeanMoves` | oldies/bofstatistics.cpp:60-69 | Any other sample is added to the accumulator as one more item. |
| `RunningMean.MeanIsExact` | oldies/bofstatistics.cpp:52-82 | As long as the sum fits in 64 bits the mean is the true one of the samples that are not zero. |
| `RunningMean.StatVariable.UpdateStatVar` | oldies/bofstatistics.cpp:119-131 | The statistic describes the samples with the new one. |
| `PortAllocator.PortIs` | oldies/bofsocketchannel.cpp:271-292 | The port of every call in closed form. |
| `PortAllocator.ListenRange` | oldies/bofsocketchannel.cpp:1614-1620 | The range of a listen is its arguments in order, with 49152 and 65535 for zeros, and the cursor at its start. |
| `PortAllocator.NoPortBeforeListen` | oldies/bofsocketchannel.cpp:278-289 | Before a listen no port is handed out. |
| `PortAllocator.RoundsOfPorts` | oldies/bofsocketchannel.cpp:280-288 | The first round goes from min + 1 to max, every later one starts with min and goes on with min + 2. |
| `PortAllocator.PortsDistinct` | oldies/bofsocketchannel.cpp:271-292 | Any max - min calls in a row return different ports, across wrap-around. |
| `PortAllocator.PortsRepeat` | oldies/bofsocketchannel.cpp:271-292 | After the first round the ports repeat with that period, and min + 1 never comes again. |
| `PortAllocator.InRangeIff` | oldies/bofsocketchannel.cpp:1614-1620 | After a listen every port lies in [min, max] if and only if the arguments are not of two named kinds. |
| `PortAllocator.Listener.OnAsyncListen` | oldies/bofsocketchannel.cpp:1614-1620 | The range is the two arguments in order, with the private ports for zeros; exactly for sound arguments no later port is out of range. |
| `PortAllocator.Listener.TakeRound` | oldies/bofsocketchannel.cpp:271-292 | A round of max - min calls from any point returns pairwise different ports of the range. |
| `ConnectDeadline.MarginIsLower` | oldies/bofsocketchannelmanager.cpp:442-453 | Timeouts from 200 ms on are accepted, and for those the margin of 100 ms never underflows. |
| `ConnectDeadline.TickSignalsIff` | oldies/bofsocketchannel.cpp:1355-1361 | A tick signals a connect in progress exactly when its time is up and changes nothing else, and nothing at all on a channel that is not connecting. |
| `ConnectDeadline.FirstTickSignals` | oldies/bofsocketchannel.cpp:1355-1361 | With ticks at most 100 ms apart, a connect in progress is signalled in the last 100 ms before the caller's deadline. |
| `ConnectDeadline.EngineIsFirstIff` | oldies/bofsocketchannel.cpp:1426-1450 | The engine signals strictly before start + T for all regular ticks if and only if the last tick before the dequeue came before start + T - 100. |
| `ConnectDeadline.TickOnMarginSpoils` | oldies/bofsocketchannel.cpp:1426-1450 | The failing input: a dequeue at start + T - 100, just behind a tick. |
| `ConnectDeadline.DequeuedInTime` | oldies/bofsocketchannel.cpp:1426-1450 | A dequeue before start + T - 100 is early enough, whenever the last tick was. |
| `ConnectDeadline.ConnectTimer.ConnectInVain` | oldies/bofsocketchannel.cpp:1342-1450 | The handler and the timer, driven over regular ticks: a connect that never completes is CONNECT_TIMEOUT at once when dequeued too late, and otherwise within the last 100 ms before the caller's deadline. |
| `ImageRecords.RecordIsLargest` | oldies/bof2d.cpp:1016-1023 | A record is the largest number of lines of width times bytes per pixel that fits its size, and at most the height. |
| `ImageRecords.EmptyRecord` | oldies/bof2d.cpp:1019-1051 | Records of no lines deliver none top-down and are refused bottom-up. |
| `ImageRecords.TopDownRecordIff` | oldies/bof2d.cpp:1025-1051 | For every 32-bit height and every file: a top-down record that starts inside the file is the wanted lines if and only if its first line is below 2^31 and inside the height, it has less than 2^31 lines, and height and file agree on where it ends. |
| `ImageRecords.PastEndRefusedIff` | oldies/bof2d.cpp:1025-1035 | A top-down record past the end delivers nothing; it is refused if and only if it starts at or behind the height or 2^31, otherwise the read fails. |
| `ImageRecords.RefusedIff` | oldies/bof2d.cpp:1046-1049 | For every top-down record number, wrapped or not, when exactly it is refused. |
| `ImageRecords.FirstPastEndRefusedIff` | oldies/bof2d.cpp:1027-1031 | With an honest height the first top-down index past the end is refused if and only if its line number does not wrap at 2^32. |
| `ImageRecords.TopDownTilesIff` | oldies/bof2d.cpp:1025-1078 | For every 32-bit height: the top-down records one behind the other are the lines of the file, each exactly once and in order, if and only if records and their starts stay below 2^31 and the height is right, or too high for a whole number of records. |
| `ImageRecords.TopDownCovers` | oldies/bof2d.cpp:1046-1051 | Below 2^31 lines an honest height gives the whole image, and the next record is refused. |
| `ImageRecords.BottomUpRightIff` | oldies/bof2d.cpp:1036-1099 | For every 32-bit height: a bottom-up record is the same record of the row-reversed image, whatever the lines, if and only if it ends inside the image, lies less than 2^31 lines behind the start of the file and has less than 2^31 lines. |
| `ImageRecords.BottomUpRecordIff` | oldies/bof2d.cpp:1036-1099 | Below 2^31 lines and for each single image: so if and only if the record ends inside the image. |
| `ImageRecords.PartialWindow` | oldies/bof2d.cpp:1038-1043 | A bottom-up record that overruns the image covers 2H - start - L lines, or is refused. |
| `ImageRecords.BottomUpPastEnd` | oldies/bof2d.cpp:1038-1049 | When exactly a bottom-up record that starts past the end is refused; the others are accepted. |
| `ImageRecords.ReadUp` | oldies/bof2d.cpp:1079-1099 | The descending row pointer leaves the lines in reverse order, and fails if and only if the file ends first. |
| `ImageRecords.ReadGraphicFile` | oldies/bof2d.cpp:1007-1112 | The outcome is that of the record, and with lines the buffer holds them. |
| `Bitmaps.LineIsEightRows` | oldies/bof2d.cpp:747-755 | The loader passes bits where bytes per pixel are expected: for a width that is a multiple of four, or one byte per pixel, its row is that of the file and a line of the reader is eight rows. |
| `Bitmaps.CutBitmap` | oldies/bof2d.cpp:1016-1019 | A bitmap has an eighth of its rows as lines; joined they are the bitmap when the rows are a multiple of eight. |
| `Bitmaps.TopDownBitmapIff` | oldies/bof2d.cpp:754-755 | The records of a top-down bitmap joined are its pixel data if and only if its rows are eight times a whole number of records; any number of rows, multiple of eight or not. |
| `Bitmaps.TopDownBitmapPastEnd` | oldies/bof2d.cpp:754-755 | The record behind the last one of a top-down bitmap is not refused, its read fails. |
| `Bitmaps.Bitmap480` | oldies/bof2d.cpp:754-755 | 480 rows: asked for 100 rows at a time five records are the whole bitmap and the sixth fails; asked for 128 rows the fourth record fails. |
| `Bitmaps.Bitmap484` | oldies/bof2d.cpp:754-755 | 484 rows: all records succeed and the last four rows are never delivered. |
| `Bitmaps.BottomUpBitmapIff` | oldies/bof2d.cpp:754-755 | A record of a bottom-up bitmap inside its height is never refused, and fails if and only if it starts in front of the last eighth. |
| `Bitmaps.BottomUpBitmapFails` | oldies/bof2d.cpp:754-755 | The first record of a bottom-up bitmap always fails, whatever its size. |

## Left out

- The calls into libuv and uvw, socket options, real reads and writes: they appear only as "close requested" and "callback fired".
- Mutexes and memory ordering: every step is atomic.
- The destructors of channel and manager, and the release command without a channel that the manager's destructor sends.
- Changing the notification type or the buffer size while data flows.
- The full socket state machine: only connecting and its timeout are modelled; UDP, which connects at once, and a second connect on an open channel are not.
- Timeouts of disconnect and listen, and the error statistics of the timer.
- `BofIoConnectionManager`, the socket poller, threads, events, XML, colour and floating-point code: mostly wrappers around foreign code, or easy.
- JSON `ToByte`, `GetNextArray`, the explicit array indices and the conversions of `BofParameter`: values are texts here.
- JsonWriter.FromByte: does not model OIDs longer than the text buffer of the writer (4095 characters) or NUL characters inside values.
- JsonCursor.Parser.GetFirst: says nothing about the cursor fields after an exception.
- JsonCursor.Parser.GetNext: says nothing about the cursor fields after an exception.
- ChannelManager.Manager.Add: does not model a channel factory that fails, the second reason for a refusal.
- ChannelManager.Manager.OnAsyncEvent: no other thread steps in between its commands; the runs of `ReleaseSafety` allow that.
- ChannelManager.Manager.OnTcpListenEvent: its callback touches no channel; `BeginAcceptClient`, `EndAcceptClient` and `AcceptAlwaysSucceeds` allow any step in between.
- Actor.ActorImplementation.OnProcessing: ends on an empty pipe, where the worker would block, and no client steps in; the runs of `Actor` allow that.
- The actor's destructor, which sends $TERM itself, an actor without a function, and numbers from 2^31 on, which std::atoi cannot read.
- FtpAddress.PasvRoundTrip: reply codes with a sign or a blank, which std::stoi would accept, are not modelled; none of them is 227.
- A PORT command without an argument, for which the code reads past its list of words, is taken as one without an address.
- The data channel that PORT and PASV open, and `ParseReply` of the command channel.
- ImageRecords.ReadGraphicFile: lines are units, so the byte offset of a line, which wraps at 2^32, file errors other than a file that ends early, what the buffer holds after such an error, and the call without a record size are not modelled.
- Bitmaps.LineIsEightRows: other widths, for which the loader's row is not the row of the file, and depths below 8 bits, for which it divides by zero, are not modelled.

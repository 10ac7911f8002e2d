# A model of the TV-Now media server's HTTP library and the code on top of it

TV-Now serves live television to DLNA clients. Its network layer is a small C library of hand-written
state machines over buffers that are filled and emptied in place. This project models that library and
the stateful parts of the server that rest on it, and proves what they promise.

**The body pipeline.** `StreamHeader` or `StreamHeader_Raw` announces a chunked body and `StreamBody` cuts it
up; `Send` and the writable step push the bytes through a queue of partly sent buffers (`SendQueue`,
`WebServer`); the peer's receive loop slides its buffer and calls back again and again (`ReceiveLoop`); the
reader finds headers and bodies in whatever fragments arrive (`WebClient`). `MessageFraming` proves that every
fragmentation of back-to-back messages is read as those messages; `Grammar` says in literals which messages
these are (header names in any case, lengths and chunk sizes as numerals by position); and `Pipeline` joins
both ends: the body put in is the body that comes out, behind every header that announces chunks, for every
list of buffers and every fragmentation (RFC 7230, sections 3.3.3 and 4.1). The link between the receive loop
and a callback is a *stream invariant*: a relation between the callback's state and the bytes not yet consumed,
buffered or still on their way. Whatever callback keeps one, the loop keeps it.

**Parsers and codecs.** The delimiter splitters (`Splitter`), the header printer and parser
(`PacketHeader`), number printing and reading (`Numbers`), the XML node list (`XmlNodes`), Base64 (`Base64`,
RFC 4648, section 4) and the XML escapes (`XmlEscape`) are proved against their inverse or their grammar.

**Linked containers.** The timer list (`LifeTime`) and the hash tree (`HashTree`) are proved to keep their
links and to refine a sorted sequence and a finite map.

**On top of the library.** The subscription table with its reference counts (`Subscribers`), the programme
list and its cursor (`Epg`), the filter string (`DidlFilter`) and the two passes of the DIDL serialiser
(`DidlSize`), whose text is read back by a reader that knows only the names and the literals of the format
(`DidlReading`, `DidlMeaning`).

How a module is built: the state is a value and each operation a function on it; laws, invariants over all
runs and reference definitions are lemmas about these functions; and the code itself, loops over buffers
and linked nodes included, is a class or a method whose contract says that it computes the function.
Where a law fails in the code, the code is kept, a lemma gives an input that shows it, and another gives
the exact condition under which the law holds.

| module | models |
|---|---|
| Options, Sequences, Numbers | shared vocabulary: optional values, facts about sequences, `strtol`, `atoi`, `%d`, `%X` |
| Splitter, PacketHeader | libIWeb/ILibParsers.c: splitters and HTTP headers |
| ReceiveLoop, SendQueue | libIWeb/ILibAsyncSocket.c: the two halves of a socket |
| WebClient, MessageFraming | libIWeb/ILibWebClient.c: the reader, and what it reads |
| Grammar | messages in the words of RFC 7230, and that the reader understands them |
| WebServer, Pipeline | libIWeb/ILibWebServer.c: the answering flags, and the whole way of a body |
| XmlNodes, LifeTime, HashTree, Base64, XmlEscape | libIWeb/ILibParsers.c |
| Subscribers | UpnpMicroStack.c |
| Epg | dvbteeserver.cpp |
| DidlFilter, DidlSize | CdsObjectToDidl.c, CdsStrings.h, CdsMediaClass.c |
| XmlReading, DidlReading, DidlMeaning | a reader of XML text, and the object it finds in the serialiser's text |

`dafny verify dfyconfig.toml` checks the project.

Conventions: C text is a Dafny string, a C array the corresponding array, a NULL pointer `null` or `None`;
shifts and masks of bytes in Base64 are written as division and remainder; integers are unbounded unless a
type or a condition says otherwise; callbacks are function values over a user state, so a theorem about all
callbacks is one about all such functions; lock regions are atomic.

What the proofs brought to light in the code:

- A chunked message is finished at its header, its chunks being left to be read as headers, if its Content-Length
  is 0 or, on a server, if it has none; otherwise it is decoded (`ChunkedIsDecodedIff`).
- A consumer that takes what it is offered gets the first bytes of a Content-Length body twice (`TakeAllMisreads`,
  `TakenRightIff`).
- The compaction of a chunk buffer is right only when nothing or everything was taken (`CompactionKeeps`).
- A request behind one that is answered later can stay in the buffer for ever, on a connection that is not paused
  (`RequestIsLeftBehind`); all requests are sure to be seen exactly when all but the last are answered inside their
  done calls (`FinishesIff`).
- On HTTP/1.0 an empty final body answers the request before the queue is drained (`StreamBody10`,
  `AnswerWithEmptyEnd`).
- Of a status text the parser keeps the first word, and an empty header value comes back as a blank (`ParseOfPrint`,
  `RoundTrip`, `EmptyValueIsLost`).
- Removing a timer by its data takes one event only (`RemoveTakesOne`, `SecondSurvives`).
- An UNSUBSCRIBE with an empty or overlong SID releases the head of the list and leaves it linked (`FreedInTheList`).
- Base64 text of data with a short tail depends on the byte behind them (`CanonicalIff`).
- A resource of height 0 can make the DIDL serialiser report corrupted memory (`ZeroHeightOverruns`).

## Model

| member | source | states |
|---|---|---|
| Pipeline.StreamedResponseArrives | libIWeb/ILibWebServer.c:514-603 | The same for StreamHeader: a response whose printed header has values and a status text of any form is read with the header as the parser makes it (values trimmed, an empty one a blank, the first word of the status text) and the concatenated body |
| Pipeline.RawResponseArrives | libIWeb/ILibWebServer.c:474-513 | The same for StreamHeader_Raw, with any status text and header lines, empty values included |
| Pipeline.PrintedIsAnnounced | libIWeb/ILibWebServer.c:514-558 | A header printed by StreamHeader announces chunks, if no Content-Length is left or the last one is not 0 |
| Pipeline.OneLengthIsStreamable | libIWeb/ILibWebServer.c:525-543 | With at most one Content-Length among the fields none is left |
| Pipeline.RawIsAnnounced | libIWeb/ILibWebServer.c:474-513 | A header sent by StreamHeader_Raw announces chunks, unless its own last Content-Length says 0 |
| Pipeline.WireOfStreamed | libIWeb/ILibWebServer.c:578-600 | The bytes of a header block, its blank line and the StreamBody calls are one chunked message of the grammar the reader is proved for, for all buffers |
| Grammar.BlockEndsFirst | libIWeb/ILibParsers.c:1375-1456 | In a printed header block the first blank line is the one that ends it, for every well-formed packet |
| Pipeline.ChunkedIsWellFormed | libIWeb/ILibWebServer.c:514-558 | Replacing the Content-Length header by the chunked transfer coding keeps the packet within what the header round trip covers |
| Pipeline.OneMessage | libIWeb/ILibWebClient.c:609-820 | A single chunked message is answered at most once whatever the fragmentation, and exactly once when all of it has arrived |
| Pipeline.Stream | libIWeb/ILibWebServer.c:474-603 | Driving the server object with either header call and a list of buffers: the response is answered unless the connection fails, and then exactly the header block and the chunk stream are on the wire, also when the answer closes the connection |
| Pipeline.ReadAll | libIWeb/ILibAsyncSocket.c:462-559 | Driving the receiving object over sent bytes is a run of the world model, ended by a pause or by the last byte |
| Pipeline.Transfer | libIWeb/ILibWebServer.c:474-603 | Server object, send queue, wire and a receive buffer that runs the reader function: whatever header call was used, an answered response has arrived as exactly one done call with the body handed to StreamBody |
| Grammar.SpokenMessagesArrive | libIWeb/ILibWebClient.c:609-820 | Messages as they are printed, back to back, with headers in any case, lengths as decimal numerals, chunk sizes in hexadecimal of either case with zeros and extensions: on a client, or a server that answers all but the last at once, every run gives their done calls, each with its own body |
| Grammar.SaidIsAnnounced | libIWeb/ILibWebClient.c:633-768 | A header whose last Content-Length is a decimal numeral of n and that does not say chunked announces a body of n bytes, 0 included; one with the chunked coding in any case announces chunks |
| Grammar.PrintedLengthSays | libIWeb/ILibWebClient.c:667-672 | The length as it is printed is such a numeral |
| Grammar.LengthIsRead | libIWeb/ILibWebClient.c:667-672 | The last field named Content-Length, in any case, gives the number its decimal numeral stands for by position |
| Grammar.CodingIsRead | libIWeb/ILibWebClient.c:657-666 | The body is chunked if and only if a Transfer-Encoding field says so, in any case |
| Grammar.SizeLineIsRead | libIWeb/ILibWebClient.c:499-515 | Every chunk line of a hexadecimal numeral in any case, with or without an extension behind a semicolon, is read as the number it stands for by position |
| Grammar.TenIsTen | libIWeb/ILibWebClient.c:667-672 | So content-LENGTH: 10 announces ten bytes |
| Grammar.SizeInLowerCase | libIWeb/ILibWebClient.c:506-509 | and 01a;name a chunk of twenty-six |
| Grammar.SpellingIsRead | libIWeb/ILibWebClient.c:499-515 | So is every spelling of a printed size, in mixed case, with any number of leading zeros |
| MessageFraming.EveryFragmentation | libIWeb/ILibWebClient.c:633-815 | For back-to-back messages, whatever the fragmentation and whenever answers are given: no fault, the done calls so far are a prefix of the expected ones, between messages the unread bytes are exactly the remaining messages, and everything is answered if and only if nothing is unread |
| MessageFraming.EveryMessageArrives | libIWeb/ILibWebClient.c:633-815 | A client, or a server that answers every request but perhaps the last inside its done call, has made exactly the expected done calls, in order and with their own bodies, when the last byte has arrived, and its buffer is empty |
| MessageFraming.FinishesIff | libIWeb/ILibWebClient.c:633-815 | On a server connection every run that ends unpaused with everything read has made all done calls if and only if the owner answers all requests but the last inside their done calls |
| MessageFraming.RequestIsLeftBehind | libIWeb/ILibAsyncSocket.c:466-479 | For any messages and any request that is answered later and is not the last, a run that reads everything and resumes: from then on, whatever happens, the connection is unpaused with nothing to come, its buffer is not empty, and a done call is missing |
| MessageFraming.RequestsAreCounted | libIWeb/ILibWebClient.c:420-473 | Over every run of a client the requests still queued and the done calls together are the requests it started with |
| MessageFraming.ReaderKeeps | libIWeb/ILibWebClient.c:609-820 | The reader preserves the stream invariant on every window, makes progress on what it leaves, and resumes within it |
| MessageFraming.DelivererKeeps | libIWeb/ILibWebClient.c:609-820 | The same invariant with pauses at the end of the stream only, for owners that answer all requests but the last at once |
| MessageFraming.StopperKeeps | libIWeb/ILibWebClient.c:609-820 | The same invariant with the number of done calls bounded by the first request that is answered later |
| MessageFraming.StepAddsOne | libIWeb/ILibWebClient.c:633-815 | One call of the reader makes one done call at most, and pauses only for a request it just delivered |
| MessageFraming.WhatHolds | libIWeb/ILibWebClient.c:633-815 | What the stream invariant says about the done calls and the unread bytes at any moment |
| MessageFraming.ChunkedIsDecodedIff | libIWeb/ILibWebClient.c:673-696 | A chunked message reaches the chunk decoder if and only if its Content-Length is not 0 and, on a server, there is one; otherwise it is finished with an empty body at its header |
| MessageFraming.TakenTwice | libIWeb/ILibWebClient.c:769-809 | With a consumer that takes everything offered, a Content-Length body advances the begin pointer by what was taken if and only if the window holds the rest of the body |
| MessageFraming.TakenInTwoParts | libIWeb/ILibWebClient.c:769-809 | From the first byte of the stream: what a consumer that takes everything makes of a Content-Length body that arrives as x and then y |
| MessageFraming.TakenRightIff | libIWeb/ILibWebClient.c:769-809 | That is the body if and only if the body starts with y |
| MessageFraming.TakeAllMisreads | libIWeb/ILibWebClient.c:769-809 | From the first byte of the stream: the body abcd that arrives in two halves is delivered to such a consumer as abab |
| MessageFraming.CompactionKeeps | libIWeb/ILibWebClient.c:557-565 | The compaction of the chunk buffer keeps the unread bytes if and only if the consumer took nothing or everything |
| ReceiveLoop.RunKeeps | libIWeb/ILibAsyncSocket.c:462-559 | For any callback, an invariant between the user state and the unread part of the stream that every call keeps is kept by every run of reads of any size and resumptions |
| ReceiveLoop.RunDrains | libIWeb/ILibAsyncSocket.c:462-559 | With a callback that makes progress and pauses at the end of the stream at most, the buffer is empty whenever everything sent has arrived |
| ReceiveLoop.LastReadDrains | libIWeb/ILibAsyncSocket.c:530-551 | After the read that takes the last byte, the connection is paused or the buffer is empty |
| ReceiveLoop.NothingMoreHappens | libIWeb/ILibAsyncSocket.c:466-479 | Left-over bytes are redelivered only when new ones arrive: without any, no event changes an unpaused connection |
| ReceiveLoop.RunThen | libIWeb/ILibAsyncSocket.c:462-559 | A run of events and one more is one step from where the run ends |
| ReceiveLoop.AsyncSocket.ProcessAsyncSocket | libIWeb/ILibAsyncSocket.c:462-559 | The object over its growing array does what the model on values does; consumed bytes followed by the unread part of the buffer are the received bytes; the kernel is offered at least 1024 bytes |
| ReceiveLoop.AsyncSocket.RedeliverLoop | libIWeb/ILibAsyncSocket.c:536-545 | The redelivery loop ends, with everything before the begin pointer consumed |
| ReceiveLoop.AsyncSocket.MoveToFront | libIWeb/ILibAsyncSocket.c:466-470 | Sliding the unread bytes to the front of the buffer keeps them |
| ReceiveLoop.AsyncSocket.Grow | libIWeb/ILibAsyncSocket.c:553-557 | Growing the buffer keeps its filled part |
| WebClient.WebClientDataObject.On_Data | libIWeb/ILibWebClient.c:609-820 | The object goes through the states of the specification and moves the begin pointer as it says |
| WebClient.WebClientDataObject.Process_Chunk | libIWeb/ILibWebClient.c:475-607 | The chunk decoder as an object, against its specification, in each of its flags |
| WebClient.WebClientDataObject.StartChunk | libIWeb/ILibWebClient.c:499-515 | The chunk line: found, read in base 16, buffer made; which lines have which size is Grammar.SizeLineIsRead |
| WebClient.WebClientDataObject.DataChunk | libIWeb/ILibWebClient.c:523-567 | The data of a chunk: copied, offered, and what the consumer took moved out |
| WebClient.WebClientDataObject.Header | libIWeb/ILibWebClient.c:633-768 | The search for the blank line, the parse and the framing headers |
| WebClient.WebClientDataObject.SizedBody | libIWeb/ILibWebClient.c:769-809 | The body with a length |
| WebClient.WebClientDataObject.OnResponse | libIWeb/ILibWebClient.c:777-791 | The consumer by contract: what it is offered and how far it moves its begin pointer |
| WebClient.WebClientDataObject.FinishedResponse_Server | libIWeb/ILibWebClient.c:400-419 | The reset between two requests of one connection |
| WebClient.WebClientDataObject.Finished_Response | libIWeb/ILibWebClient.c:420-473 | The reset between two responses |
| WebClient.WebClientDataObject.Introspection | libIWeb/ILibWebClient.c:653-676 | Transfer-Encoding and Content-Length as the header loop reads them, the last one winning; what they mean is Grammar.SaidIsAnnounced |
| WebClient.WebClientDataObject.FindHeaderEnd | libIWeb/ILibWebClient.c:636-648 | The header ends at the first CRLFCRLF of the window |
| WebClient.WebClientDataObject.ScanChunkLine | libIWeb/ILibWebClient.c:501-509 | The chunk line ends at the first CRLF |
| SendQueue.AsyncSocketModule.Send | libIWeb/ILibAsyncSocket.c:284-375 | Accepted bytes are appended to what goes out; bytes on the wire followed by the queued unsent ones are the bytes accepted, and the two counters agree with them; 0 is answered only with an empty queue |
| SendQueue.AsyncSocketModule.PostSelect | libIWeb/ILibAsyncSocket.c:603-658 | The writable step sends on in order and reports SendOK only when the queue is drained, and then everything accepted is on the wire |
| SendQueue.AsyncSocketModule.ClearPendingSend | libIWeb/ILibAsyncSocket.c:264-282 | Both ends of the queue are cleared |
| SendQueue.AsyncSocketModule.Disconnect | libIWeb/ILibAsyncSocket.c:376-408 | Closing drops the queue |
| SendQueue.AsyncSocketModule.DrainedIsSent | libIWeb/ILibAsyncSocket.c:603-658 | An empty queue on a connection that has not failed means that the wire has every accepted byte and nothing is pending |
| SendQueue.KernelSend | libIWeb/ILibAsyncSocket.c:325-352 | The kernel takes at least one byte of what it is offered and at most all of it, or refuses, or fails |
| WebServer.Session.RequestAnswered | libIWeb/ILibWebServer.c:326-392 | The body behind the Reserved8 guard runs once per request: the answer log grows by one entry, the unsent bytes at that moment |
| WebServer.Session.KeepsAliveMeans | libIWeb/ILibWebServer.c:343-379 | A connection is kept exactly if nothing has overridden it and, on HTTP/1.0, a Connection field says keep-alive, otherwise none says close, in any case |
| WebServer.Session.OnResponse | libIWeb/ILibWebServer.c:197-275 | The flags of a new request are those the answer functions rely on |
| WebServer.Session.Send_Raw | libIWeb/ILibWebServer.c:461-473 | Only the last part of an answer can end the request, and it does so only with a drained queue |
| WebServer.Session.Writable | libIWeb/ILibWebServer.c:394-407 | SendOK ends the request that was waiting for the queue to drain, and no other; then everything accepted is on the wire, also when the connection is closed with the answer |
| WebServer.Session.StreamHeader | libIWeb/ILibWebServer.c:514-558 | The printed header is accepted, with the chunked coding in place of Content-Length unless the request is HTTP/1.0, which must close the connection if it has no length |
| WebServer.ChunkItMeans | libIWeb/ILibWebServer.c:525-543 | The first Content-Length becomes the chunked coding, which is appended when there is none; all other fields stay as they are |
| WebServer.Session.StreamHeaderRaw | libIWeb/ILibWebServer.c:474-513 | Status line, chunked coding unless the request is HTTP/1.0, header text and blank line are accepted in this order; on HTTP/1.0 the connection must close |
| WebServer.StatusTextFits | libIWeb/ILibWebServer.c:482-483 | The status line fits its buffer of 20 bytes and the status text |
| WebServer.Session.StreamBody | libIWeb/ILibWebServer.c:578-600 | On HTTP/1.1 the chunk line in hexadecimal, the data, and after the last part the terminating chunk are accepted; the request is answered once, behind the last part, and only with all of it on the wire |
| WebServer.Session.StreamBody10 | libIWeb/ILibWebServer.c:566-577 | On HTTP/1.0 the data are accepted as they are; an empty final part answers a request with a drained queue if and only if nothing was unsent before |
| WebServer.Session.AnswerWithEmptyEnd | libIWeb/ILibWebServer.c:566-577 | A part and an empty end: whenever the kernel has not taken all of the part, the request counts as answered with bytes still queued |
| WebServer.ChunkLineFits | libIWeb/ILibWebServer.c:583-584 | The chunk line of any 32-bit length fits its 16 bytes |
| Numbers.ReadPrinted | libIWeb/ILibWebClient.c:506-508 | Reading a number as %d or %X prints it gives the number back |
| Numbers.StrtolOfPrinted | libIWeb/ILibWebClient.c:506-508 | strtol in base 10 or 16 inverts the printer for every number a long holds |
| Numbers.AtoiOfPrinted | libIWeb/ILibParsers.c:1273-1278 | atoi inverts the decimal printer for every non-negative int |
| Numbers.PrintInjective | UpnpMicroStack.c:1203-1205 | Different numbers print differently |
| Numbers.PrintedLength | UpnpMicroStack.c:1204 | A number below base^k prints in at most k digits |
| Numbers.StrtolReads | libIWeb/ILibWebClient.c:506-508 | strtol on white space, sign, prefix, digits of any length in either case and whatever follows gives the number by the positions of its digits, saturated at the ends of a long |
| Numbers.ToIntWraps | libIWeb/ILibParsers.c:1273-1278 | The conversion to an int keeps the low 32 bits |
| Numbers.PrintedNumeral | UpnpMicroStack.c:1203-1205 | What is printed is the numeral of the number by position, in capitals and without a leading zero |
| Splitter.JoinOfSplit | libIWeb/ILibParsers.c:1136-1194 | Joining the fields with the delimiter gives the input back |
| Splitter.FieldsAreFree | libIWeb/ILibParsers.c:1136-1194 | No field contains the delimiter |
| Splitter.SplitOfJoin | libIWeb/ILibParsers.c:1136-1194 | Splitting a join of delimiter-free fields gives the fields back, for delimiters that do not overlap themselves |
| Splitter.SplitAt | libIWeb/ILibParsers.c:1136-1194 | Splitting on both sides of a delimiter and appending is splitting the whole |
| Splitter.ParseString | libIWeb/ILibParsers.c:1136-1194 | The offsets and lengths the loop records spell the fields of the split of the given range, `length` being an end index |
| Splitter.ParseStringAdv | libIWeb/ILibParsers.c:1052-1135 | The same for the quote-aware splitter |
| Splitter.IsDelimiter | libIWeb/ILibParsers.c:1033-1051 | The delimiter test, within the buffer size |
| Splitter.JoinOfSplitAdv | libIWeb/ILibParsers.c:1052-1135 | The quote-aware splitter obeys the join law, from any quote state |
| Splitter.QuotedStretchIsWhole | libIWeb/ILibParsers.c:1052-1135 | It never splits while its quote state says Ignore |
| Splitter.QuotedTextIsWhole | libIWeb/ILibParsers.c:1052-1135 | A text between two marks of one kind, double or single, stays in one field whatever it contains |
| Splitter.SplitAdvOfPlain | libIWeb/ILibParsers.c:1052-1135 | Without quotes it splits as the plain splitter does |
| PacketHeader.RoundTrip | libIWeb/ILibParsers.c:1240-1456 | Parsing what the printer prints, before any body, recovers the packet if and only if the status text has no blank and no header value is empty or has a blank at an end |
| PacketHeader.ParseOfPrint | libIWeb/ILibParsers.c:1240-1456 | What the parser makes of a printed packet, for all status texts and values |
| PacketHeader.FirstWordIsAll | libIWeb/ILibParsers.c:1279-1280 | The parser keeps the status text if and only if it has no blank |
| PacketHeader.HeardFieldsAreSame | libIWeb/ILibParsers.c:1332-1351 | The fields come back unchanged if and only if every value is trimmed and not empty |
| PacketHeader.ParsePacketHeader | libIWeb/ILibParsers.c:1240-1374 | The parser over a buffer range computes the specified packet, rejection or fault |
| PacketHeader.GetRawPacket | libIWeb/ILibParsers.c:1375-1456 | The printer writes start line, headers, blank line and body into a buffer of the size it computed, which suffices |
| PacketHeader.BufferSize | libIWeb/ILibParsers.c:1382-1399 | The computed buffer size covers the text for codes of up to three digits and versions of up to three characters |
| PacketHeader.EmptyValueIsLost | libIWeb/ILibParsers.c:1332-1351 | A header with an empty value comes back as a blank, for every start line and body |
| PacketHeader.RequestIsRead | libIWeb/ILibParsers.c:1240-1374 | A request line, a header line and a body as they stand on the wire are read as that request |
| PacketHeader.ResponseIsRead | libIWeb/ILibParsers.c:1240-1374 | The same for a status line |
| PacketHeader.TrimMeans | libIWeb/ILibParsers.c:1332-1351 | Blanks around a value are not part of it |
| PacketHeader.SplitAtBlank | libIWeb/ILibParsers.c:1256-1258 | The lines of a block and of what stands behind its blank line |
| PacketHeader.ParseOfBlock | libIWeb/ILibParsers.c:1240-1374 | What stands behind the blank line does not change the parse |
| PacketHeader.ParseHeaderLine | libIWeb/ILibParsers.c:1313-1354 | One header line, split at the first colon and trimmed |
| PacketHeader.TrimValue | libIWeb/ILibParsers.c:1332-1351 | Blanks at both ends of a value are removed |
| PacketHeader.ParseFirstLine | libIWeb/ILibParsers.c:1259-1306 | The request or status line |
| XmlNodes.AcceptedIffNested | libIWeb/ILibParsers.c:406-465 | The tag stack algorithm answers 0 if and only if the list is the flattening of a forest with matching names |
| XmlNodes.RejectionMeans | libIWeb/ILibParsers.c:424-463 | -1 is answered exactly for a close tag with nothing open, -2 exactly for one that another name would have made the last, -3 otherwise |
| XmlNodes.WeaveOfForest | libIWeb/ILibParsers.c:406-465 | On an accepted list Parent, Peer and ClosingTag of every node are the enclosing element, the next sibling and the matching close of that forest |
| XmlNodes.VerdictOver | libIWeb/ILibParsers.c:406-465 | A whole forest leaves the stack, and so the verdict on the rest, as it was |
| XmlNodes.Decompose | libIWeb/ILibParsers.c:406-465 | An accepted rest closes exactly the open elements, with a forest before each close |
| XmlNodes.WeaveOver | libIWeb/ILibParsers.c:406-465 | Over a forest the algorithm sets exactly the links of the forest and no other |
| XmlNodes.InnerEndsAtClosing | libIWeb/ILibParsers.c:466-483 | From any start tag of an accepted list the scan for the inner text stops at the ClosingTag of that node |
| XmlNodes.StopsOver | libIWeb/ILibParsers.c:466-483 | The scan passes over every complete forest |
| XmlNodes.ProcessXMLNodeList | libIWeb/ILibParsers.c:406-465 | The loop over the linked nodes answers the verdict and writes the links of the specification into them |
| XmlNodes.SetParent | libIWeb/ILibParsers.c:417-422 | A start tag points to the innermost open element |
| XmlNodes.SetClosing | libIWeb/ILibParsers.c:431-438 | A close tag ends the element popped for it and gives it its peer |
| XmlNodes.ReadInnerXML | libIWeb/ILibParsers.c:466-483 | The inner text reaches from the start tag to its ClosingTag, and is never negative in length |
| Subscribers.RunKeeps | UpnpMicroStack.c:1082-1346 | Over every run of subscriptions, events, deliveries and unsubscriptions with SIDs of 1 to 64 characters the table is sound: at most ten subscribers a list, SIDs distinct, RefCount the number of references, freed exactly at none, events numbered from 0 |
| Subscribers.StepKeeps | UpnpMicroStack.c:1082-1346 | Each of the operations keeps the table sound |
| Subscribers.UnsubscribeKeeps | UpnpMicroStack.c:934-974 | Unsubscribing keeps the table sound if and only if the SID has 1 to 64 characters or the list is empty |
| Subscribers.FreedInTheList | UpnpMicroStack.c:939-943 | An UNSUBSCRIBE with an empty SID frees the only subscriber and leaves it in the list |
| Subscribers.FreedIsFinal | UpnpMicroStack.c:977-989 | No later step touches a freed record |
| Subscribers.NotifyKeeps | UpnpMicroStack.c:1947-1970 | Sending keeps the count of references and the numbering, and is never done for a freed record |
| Subscribers.NotifyNumbers | UpnpMicroStack.c:1961-1969 | The i-th message to a subscriber carries SEQ i |
| Subscribers.PublishReaches | UpnpMicroStack.c:1971-2014 | An event adds exactly one message and one undelivered container for every SID of the list of its service, in order, and none for others |
| Subscribers.SubscribeReaches | UpnpMicroStack.c:1198-1346 | A new subscriber stands at the head of its list with a new SID and gets message 0; without room or address nobody gets anything |
| Subscribers.RunReaches | UpnpMicroStack.c:1082-1346 | Over every run every subscriber has been sent exactly the initial event and one message for each event published while it was in the list of the service |
| Subscribers.UnsubscribeTakes | UpnpMicroStack.c:934-974 | Unsubscribing takes the SID out of its list, keeps the others in order and sends nothing; a SID that is not in the list changes nothing |
| Subscribers.DeliverTakes | UpnpMicroStack.c:1922-1934 | An answered message is undelivered no more, and the record of its subscriber is freed exactly if that was the last to refer to it |
| Subscribers.EnrolKeeps | UpnpMicroStack.c:1306-1317 | A new record under the next SID keeps the table sound |
| Subscribers.ReleaseKeeps | UpnpMicroStack.c:1128-1137 | Once a reference is gone, dropping the count restores soundness, and frees the record exactly with its last reference |
| Subscribers.DeliverKeeps | UpnpMicroStack.c:1922-1934 | A delivered container drops one reference, once |
| Subscribers.SidsDiffer | UpnpMicroStack.c:1203-1205 | Different counters give different SIDs |
| Subscribers.SidFits | UpnpMicroStack.c:1204-1205 | The SID of any 32-bit counter fits its 16 bytes and is one that UNSUBSCRIBE accepts |
| Subscribers.SubscriberList.Insert | UpnpMicroStack.c:1309-1317 | The new node becomes the head; Next and Previous stay mutually inverse and the counter is the length |
| Subscribers.SubscriberList.Remove | UpnpMicroStack.c:934-974 | The first node of the SID leaves the doubly linked list and the counter follows; for a SID of another length the head is returned and stays |
| Subscribers.SubscriberList.Unlink | UpnpMicroStack.c:949-972 | The neighbours of the removed node point at each other |
| Subscribers.UpnpDataObject.SendEventBody | UpnpMicroStack.c:1947-1970 | The objects follow the table when a message goes out |
| Subscribers.UpnpDataObject.SendEvent | UpnpMicroStack.c:1971-2014 | The walk along the list: one message more for every subscriber of the service, in list order and each with the number its record has at that moment, and no other |
| Subscribers.UpnpDataObject.SendEventSink | UpnpMicroStack.c:1906-1946 | The objects follow the table when a message is answered |
| Subscribers.UpnpDataObject.ProcessUnsubscribe | UpnpMicroStack.c:1082-1146 | The objects follow the table when a subscriber leaves; 200 or 412 as a record was found |
| Subscribers.UpnpDataObject.TryToSubscribe | UpnpMicroStack.c:1198-1346 | The objects follow the table for a new subscriber, which gets message 0; 412 and no message for the eleventh and for a callback without a usable address, which still uses up a SID |
| Subscribers.UpnpDataObject.RenewEvents | UpnpMicroStack.c:1371-1413 | A subscription can be renewed if and only if its SID is in the list |
| LifeTime.RunKeeps | libIWeb/ILibParsers.c:1911-2100 | Over every run of additions, checks, removals and flushes, whatever the callbacks add or remove, the list is sorted and every event added is in exactly one place: pending, fired or removed |
| LifeTime.CheckFires | libIWeb/ILibParsers.c:1970-2015 | A check fires exactly the events due at its tick, in list order |
| LifeTime.CheckFollows | libIWeb/ILibParsers.c:1970-2015 | A check does what the callbacks of the due events ask for, in order, their state going from one to the next: for every data the ticks still pending are those not due, changed by the additions, removals and flushes one after the other |
| LifeTime.CheckAdds | libIWeb/ILibParsers.c:2009-2015 | When the callbacks only add, the pending events are those not due and one for every addition, with its data and tick |
| LifeTime.ApplyFollows | libIWeb/ILibParsers.c:1911-2100 | For every data the pending ticks are a queue in order of expiry: an addition is queued, a removal takes the earliest, a flush takes all |
| LifeTime.FireAllKeeps | libIWeb/ILibParsers.c:2009-2015 | While callbacks run, every event is pending, waiting for its callback, fired or removed; only the waiting ones fire |
| LifeTime.RemoveTakesOne | libIWeb/ILibParsers.c:2029-2081 | Removing by data leaves none of that data if and only if there was at most one |
| LifeTime.SecondSurvives | libIWeb/ILibParsers.c:2061-2071 | Of two events with one data the second survives the removal |
| LifeTime.ILibLifeTime.AddEvent | libIWeb/ILibParsers.c:1911-1968 | The event is linked in front of the first one that does not expire earlier, both directions of the list included |
| LifeTime.ILibLifeTime.RemoveEvent | libIWeb/ILibParsers.c:2029-2081 | The first match is unlinked and the search ends there |
| LifeTime.ILibLifeTime.FlushEvents | libIWeb/ILibParsers.c:2082-2100 | Every pending event is dropped |
| LifeTime.ILibLifeTime.CheckDue | libIWeb/ILibParsers.c:1970-2027 | The due prefix is cut off and its callbacks run, adding and removing as they like, with the effect of LifeTime.CheckFollows; on return the wait is no longer than the time to the new head |
| LifeTime.ILibLifeTime.TakeDue | libIWeb/ILibParsers.c:1982-2002 | The due events leave the list as a list of their own |
| HashTree.RunAgrees | libIWeb/ILibParsers.c:898-973 | After every run of additions and deletions the list holds what a plain map would, each key once |
| HashTree.GetAgrees | libIWeb/ILibParsers.c:948-959 | A lookup answers as the map does |
| HashTree.StoreAgrees | libIWeb/ILibParsers.c:942-946 | Adding updates the map at the key and keeps keys unique |
| HashTree.EraseAgrees | libIWeb/ILibParsers.c:960-973 | Deleting removes the key from the map, keys being unique |
| HashTree.HashTree.FindOrLast | libIWeb/ILibParsers.c:898-937 | The search, with the hash compared first, ends at the node of the key or at the last one: the hash never changes the result |
| HashTree.HashTree.FindEntry | libIWeb/ILibParsers.c:898-937 | The node of the key, or NULL, also for the empty key |
| HashTree.HashTree.FindOrCreate | libIWeb/ILibParsers.c:898-937 | A missing key gets a new node behind the last one |
| HashTree.HashTree.HasEntry | libIWeb/ILibParsers.c:938-941 | Whether the map has the key |
| HashTree.HashTree.GetEntry | libIWeb/ILibParsers.c:948-959 | What the map has at the key, or NULL |
| HashTree.HashTree.AddEntry | libIWeb/ILibParsers.c:942-946 | The map is updated at the key; the doubly linked list stays whole |
| HashTree.HashTree.DeleteEntry | libIWeb/ILibParsers.c:960-973 | The key leaves the map; the node always has a predecessor |
| HashTree.HashTree.Enumerate | libIWeb/ILibParsers.c:833-863 | Moving an enumerator until it ends visits every entry once, in order of insertion |
| HashTree.HashNodeEnumerator.MoveNext | libIWeb/ILibParsers.c:843-855 | The next entry, and 1 at the end |
| Base64.RoundTrip | libIWeb/ILibParsers.c:1680-1784 | Decoding gives back what was encoded, whatever byte lies behind the data |
| Base64.NoiseIsIgnored | libIWeb/ILibParsers.c:1735-1784 | A character outside the alphabet may stand anywhere without changing the result |
| Base64.SextetsJoin | libIWeb/ILibParsers.c:1749-1772 | The decoder sees only the sequence of alphabet characters |
| Base64.DecodedLength | libIWeb/ILibParsers.c:1773-1780 | m alphabet characters decode to 3 * (m / 4) bytes, and one less than the rest of a last group |
| Base64.EncodedLength | libIWeb/ILibParsers.c:1689-1724 | Four characters for every three bytes begun |
| Base64.EncodedAt | libIWeb/ILibParsers.c:1689-1724 | Each character is the letter of the alphabet of RFC 4648 for its six bits of its group of 24, or a pad where the data have none |
| Base64.CodeMeans | libIWeb/ILibParsers.c:1749-1762 | The decoder takes a character for its place in that alphabet and passes over any other one |
| Base64.CanonicalIff | libIWeb/ILibParsers.c:1680-1686 | The text has the zero pad bits of RFC 4648 if and only if the byte behind a short tail is small enough |
| Base64.TablesInvert | libIWeb/ILibParsers.c:1676-1677 | The decoding table inverts the alphabet |
| Base64.Encode | libIWeb/ILibParsers.c:1689-1724 | The encoder writes the specified text and a terminator within its allocation, reading at most one byte past the data |
| Base64.Decode | libIWeb/ILibParsers.c:1735-1784 | The decoder writes the specified bytes and a terminator within its allocation, for every text; the byte behind the text never counts |
| Base64.DecodeGroups | libIWeb/ILibParsers.c:1749-1781 | Group by group, writing three bytes and keeping those that count |
| Base64.FetchGroup | libIWeb/ILibParsers.c:1751-1772 | Up to four values, the last group ending with the text |
| Base64.NextCode | libIWeb/ILibParsers.c:1754-1762 | The scan stops at the next alphabet character within the text |
| XmlEscape.UnescapeOfEscape | libIWeb/ILibParsers.c:1786-1909 | Unescaping inverts escaping on every text |
| XmlEscape.DoubleIsTwice | CdsObjectToDidl.c:109-159 | The double escape is the escape applied twice |
| XmlEscape.TwoUnescapes | CdsObjectToDidl.c:109-159 | Two unescapes recover a doubly escaped text |
| XmlEscape.EscapedIsClean | libIWeb/ILibParsers.c:1859-1909 | No quote, apostrophe or angle bracket is left, and no terminator is made |
| XmlEscape.EscapeOfOne | libIWeb/ILibParsers.c:1859-1909 | The five entities of XML |
| XmlEscape.UnescapeOfEntity | libIWeb/ILibParsers.c:1786-1827 | Each of them is unescaped to its character |
| XmlEscape.XmlEscapeLength | libIWeb/ILibParsers.c:1829-1857 | The length function counts the bytes the writer emits |
| XmlEscape.XmlEscape | libIWeb/ILibParsers.c:1859-1909 | The writer emits the escaped text and a terminator |
| XmlEscape.DoubleEscapeLength | CdsObjectToDidl.c:79-107 | The same for the double escape |
| XmlEscape.DoubleEscapeInto | CdsObjectToDidl.c:109-159 | The writer of the double escape |
| XmlEscape.InPlaceUnescape | libIWeb/ILibParsers.c:1786-1827 | In the buffer it reads, the unescape leaves the unescaped text and a terminator and touches nothing behind the old one |
| XmlEscape.UnescapeOne | libIWeb/ILibParsers.c:1791-1824 | The writer stays at or behind the reader, so what is still to be read is intact |
| XmlEscape.EntityAt | libIWeb/ILibParsers.c:1793-1817 | The comparisons of one position look at no character behind the terminator |
| Epg.InsertedKeeps | dvbteeserver.cpp:127-153 | The list stays strictly increasing in start with the new program the only one of its start; nothing else is new and only expired programs are lost |
| Epg.InsertedIs | dvbteeserver.cpp:127-153 | Exactly what the list holds after an insertion |
| Epg.InsertedHas | dvbteeserver.cpp:127-153 | Program by program: the new one, the earlier ones that have not ended, and the later ones from the first that has not ended on |
| Epg.SeekMeets | dvbteeserver.cpp:385-426 | The first call returns the first program of the day that has not expired |
| Epg.AdvanceMeets | dvbteeserver.cpp:428-471 | The next call returns the next one; a program of a later day ends the walk, and then none of this day is left |
| Epg.VisitOrder | dvbteeserver.cpp:428-471 | A walk returns programs of the day in order, without repeats |
| Epg.VisitCurrent | dvbteeserver.cpp:452-456 | None of them has expired when it is returned |
| Epg.VisitComplete | dvbteeserver.cpp:428-471 | A program of the window is returned if and only if it has not expired when the walk reaches it, in the call behind those that returned the programs before it; the clock may do as it likes |
| Epg.DayIsComplete | dvbteeserver.cpp:385-471 | A walk over a day returns exactly the programs that start within its 86400 seconds and have not ended when they are reached, in order of start |
| Epg.ProgramList.InsertSorted | dvbteeserver.cpp:127-153 | The loop with its erasures computes the specified list |
| Epg.ProgramList.FirstEpgEvent | dvbteeserver.cpp:385-426 | The search with its erasures, as specified |
| Epg.ProgramList.NextEpgEvent | dvbteeserver.cpp:428-471 | The advance with its erasures and its early end, as specified |
| Epg.ProgramList.WalkDay | dvbteeserver.cpp:385-471 | First and repeated next calls return exactly the walk over the programs of the day |
| DidlFilter.Compositional | CdsObjectToDidl.c:175-337 | The bits of a,b are the bits of a or those of b, for every b that does not start with an asterisk |
| DidlFilter.FilterMeans | CdsObjectToDidl.c:175-337 | For each of the names that can be asked for, its bit is set if and only if a field of the filter names it |
| DidlFilter.ScanIsSplitAndClassify | CdsObjectToDidl.c:195-325 | The one-pass scan gives the bits of the comma-separated fields, each classified on its own |
| DidlFilter.OrderDoesNotMatter | CdsObjectToDidl.c:175-337 | Filters with the same fields in another order mean the same, away from a leading asterisk |
| DidlFilter.ResIsImplied | CdsObjectToDidl.c:251-302 | A resource attribute brings the resource; without an asterisk only the fifteen supported bits are set |
| DidlFilter.ScanOfField | CdsObjectToDidl.c:195-325 | One field: the first deciding character starts its name |
| DidlFilter.GetFilterBitString | CdsObjectToDidl.c:175-337 | The loop with its flag computes the scan |
| DidlSize.NeverCorrupted | CdsObjectToDidl.c:385-1137 | Text, footer and terminator fit the computed size, in either escape mode, with or without header, for any resource list whose resources are measured |
| DidlSize.ObjectFits | CdsObjectToDidl.c:757-1137 | The writing pass stays strictly below the size of the sizing pass |
| DidlMeaning.ObjectIsRead | CdsObjectToDidl.c:757-1106 | The reading law: from the text of any object, unescaped once and taken apart at brackets and quotes, a reader recovers the identifiers, flags and counts of the start tag, title, class, creator, genre and album, and the resources in order, exactly those that are shown |
| DidlMeaning.ResourceIsRead | CdsObjectToDidl.c:851-922 | Of a resource the attributes shown and no others, by their names: bitrate divided by 8, width and height in this order, hours, minutes and seconds of the duration, size, protection and the rest, numbers by the positions of their digits |
| DidlMeaning.TimeAfterMeans | CdsObjectToDidl.c:886-888 | The time buffer holds the last positive duration that was shown, or what it held to begin with |
| DidlReading.ObjectNodesAreRead | CdsObjectToDidl.c:757-1106 | The text has exactly the tags and contents of the object, in order |
| DidlReading.DidlNodesAreRead | CdsObjectToDidl.c:757-1137 | With header and footer these stand between the tags of the document |
| DidlReading.NamespacesAreRead | CdsStrings.h:123 | The document declares its three name spaces |
| DidlMeaning.VideoClasses | CdsMediaClass.h:211-240 | The codes of video classes and their names; likewise the other normative classes |
| DidlSize.FitsIffMeasured | CdsObjectToDidl.c:532-597 | The text of a resource fits the bytes counted for it under every filter, escape mode and time buffer if and only if a width never comes with a height of 0 and the duration is not 0 |
| DidlSize.ZeroHeightOverruns | CdsObjectToDidl.c:579-583 | A resource with sides 0 behind one with sides 1 makes the serialiser report corrupted memory |
| DidlSize.AttributeFits | CdsObjectToDidl.c:549-593 | Every attribute printed was counted, and its text is within its room |
| DidlSize.AllRaisedWithin | CdsObjectToDidl.c:532-597 | The sizing pass raises no flag the filter did not ask for |
| DidlSize.ResourcesFit | CdsObjectToDidl.c:851-922 | The texts of all resources fit the bytes counted for them |
| DidlSize.StartFits | CdsObjectToDidl.c:766-836 | Start and end tags fit, with any child count and with or without a reference |
| DidlSize.ClassFits | CdsObjectToDidl.c:465-471 | The class name fits, with two bytes to spare |
| DidlSize.SizeResources | CdsObjectToDidl.c:532-597 | Field by field and flag by flag, the loop adds what the resources take and raises the flags of the attributes counted |
| DidlSize.WriteResources | CdsObjectToDidl.c:851-922 | The prints of the writing pass put out the texts of the resources, a time string staying in its buffer for the next one; what they say is DidlMeaning.ResourceIsRead |
| DidlSize.ComputeSize | CdsObjectToDidl.c:385-750 | The checks in their order; the accumulated size is more than what the second pass writes with the flags raised here, for measured resources and any time buffer, header and footer included |
| DidlSize.CheckMeans | CdsObjectToDidl.c:385-748 | Each error code, when it is the first to apply |
| DidlSize.Write | CdsObjectToDidl.c:757-1106 | The prints in their order; with the flags of the first pass and measured resources they stay below the computed size; what they say is DidlMeaning.ObjectIsRead |
| DidlSize.GetMediaObjectDidlEscaped | CdsObjectToDidl.c:343-1137 | The error of the first failed check, a read past a table of class names, the text, or corrupted memory exactly when the text reaches the computed size; with measured resources always a text, which fits with its footer and a terminator |

## Left out

- PacketHeader.RoundTrip: holds for packets whose tokens contain no separators.
- MessageFraming.EveryFragmentation: messages the code cannot frame are not among those it speaks of: chunked messages that are finished at their header, chunked requests answered inside their done call, responses that end with the connection, trailers, and header blocks that do not parse.
- Pipeline.StreamedResponseArrives: needs a version of at most three characters, because the cloned header keeps three, and fields whose last remaining Content-Length is not 0, because only the first one is replaced.
- Pipeline.RawResponseArrives: needs header lines that all have a colon, because the parser rejects a header with a line that has none, and a last Content-Length other than 0.
- Pipeline.Transfer: the receive buffer calls the reader function; WebClientDataObject, which is proved to follow that function, is not wired to it.
- WebServer.Session.Send_Raw: covers the calls of an answer in its phases: parts while the request arrives or waits, and one last part; sends without an open request, and behind the last part, are not modelled.
- WebServer.Session.StreamHeaderRaw: takes status codes that are not negative.
- ReceiveLoop.AsyncSocket.ProcessAsyncSocket: every receive brings at least one byte; one that fails, or that reports the end of the stream, is not modelled.
- HashTree.RunAgrees: an addition under the empty key, on which the code dereferences NULL, is a step like any other in it; the object's AddEntry excludes it.
- DidlMeaning.ObjectIsRead: metadata that the caller calls escaped must have no quotes and angle brackets, and the uninitialised time buffer none of the five characters of markup unless no duration is 0.
- SendQueue.AsyncSocketModule.PostSelect: after a refused write the loop tries again at once; the model bounds how often the kernel refuses, so that the step ends.
- SendQueue.AsyncSocketModule.Send: buffers of length 0 are not sent; the writable step would never finish with one in the queue.
- DidlSize.ObjectFits: says nothing of the EPG and broadcast fields or of the filter `*`, whose bits overlap, so the two passes can disagree there; it needs measured resources, and how many bytes others may take is not stated for whole objects.
- Subscribers.RunKeeps: covers runs without expiry and without failed delivery; the code for those unlinks and frees records that are still in use.
- Subscribers.UpnpDataObject.ProcessUnsubscribe: takes the SID header as found and the path as one of the two services; a missing header and another path lead to the same 412.
- Subscribers.UpnpDataObject.TryToSubscribe: whether the callback URL has a usable address is an input; the URL scan with its parser calls is not modelled.
- LifeTime.ILibLifeTime.CheckDue: the current tick is an input, and widths of the tick counter are not modelled.
- LifeTime.ILibLifeTime.FlushEvents: the destroy callbacks and the release of memory are not modelled.
- Sockets, select, SSDP multicast, files, threads and semaphores are the environment; loss of a connection during a read is not modelled, and memory ownership flags and frees are modelled only for subscriber records.
- A reader that faults in the code (a NULL header, a negative length, a done call from inside a chunk that is answered at once) is marked as faulted, and nothing is claimed from there on.
- Consumers that take a part of what they are offered: only the compaction is stated for them.
- The chunk buffer of the reader grows as needed; its recorded size never changes in the code. The overlapping copy in it is modelled as a move.
- The terminators that the header parser writes into its input, and the links of its result list, which is a sequence here.
- The timers with which the web server closes idle connections, virtual directories and the header printer for raw text.
- The connection pool of the web client, its retries and redirects.
- `ILibParseXML` and attribute parsing: the node list is taken as given, with no links set.
- The stack and the queue on their own, range requests, URL decoding, MIME tables and Browse pagination: easy members.
- The channel lookup of the programme list and the day cursor; day bounds are inputs, calendar and time zones are not modelled.
- libdvbtee, the tuner and scanning code, test data and platform branches.

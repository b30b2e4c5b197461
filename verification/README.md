# Verified model of a C++ web framework

This project models the byte-stream parsers, the concurrent and scheduling structures and the index
structures of the framework in Dafny and proves properties of them. Each component has a specification on
values, the imperative form of the source (classes, loops and in-place updates) proved against it, and
theorems about the specification that hold for every input, run or schedule.

- `LockfreeQueue`, `LockfreeCalls`: the multi-producer, multi-consumer ring as atomic steps of any number of threads,
  what becomes of every call, and the same operations as a class run by one thread. Steps are sequentially
  consistent. A swap must not see a full lap of the index it swaps; without that bound a concrete run breaks the order.
- `HttpStep`, `HttpStream`, `HttpParser`, `HttpFraming`, `HttpHeaders`, `HttpValues`, `HttpMethods`: the request side
  of the HTTP/1.1 push parser in strict mode with callbacks that return 0. One pass of the switch per byte is a
  function; the parser object adds the bulk loops, marks and the body counter. Callback data of one kind that
  is reported in neighbouring pieces is glued together.
- `HttpTarget`, `HttpRequest`, `HttpMessages`, `HttpConnection`, `HttpRefusals`: what a request means, from the bytes of
  its line, headers and body to the callbacks and the state behind it, requests one behind the other on a connection,
  and what is refused (RFC 7230).
- `JsonText`, `JsonWriter`, `JsonParse`, `JsonReader`, `JsonRoundTrip`: the fast JSON writer, the reader with the
  settings used for request bodies, and their round trip (RFC 8259, and section 4 of RFC 3629 for UTF-8).
- `JsonLayout`, `JsonAccepted`: the texts that the reader takes, with blanks, comments, any spelling of strings and
  members in any order: every layout is read as what it means, and every text that is read is a layout.
- `MultipartStep`, `MultipartTrip`, `MultipartRoundTrip`, `MultipartBody`, `MultipartEnvelope`: the multipart parser,
  its printer, the handlers of a request and what comes back through them (section 5.1.1 of RFC 2046).
- `ByteBuffers`, `WebSocketFrames`, `WebSocketMessages`, `WebSocketTraffic`, `WebSocketSession`: the connection buffer,
  and WebSocket frames, messages and control frames (sections 5.2 to 5.5 of RFC 6455).
- `ByteDatas`, `SendQueue`: outgoing packets, their cursor, and the send queue of an open connection.
- `LinkedLists`, `Scheduling`, `Lifecycles`, `CoEventLoops`: the intrusive list, the coroutine loop on top of it, and
  what becomes of every coroutine.
- `HashTable`: the chained hash table of the bundled Redis client.
- `TimerWheel`: the clock of the timing wheel and the firing of timers on its lowest layer.
- `RouteTrie`, `RouteMatching`, `Routers`: the route trie, when it routes as its patterns say, and the binding of path
  parameters.
- `Wrappers`, `Arithmetic`, `Sequences`: what several modules share.

Bytes are characters below 256 in the text parsers and integers from 0 to 255 in the buffers. What the kernel,
other threads and coroutines do is a parameter or a schedule: a scattered read returns any bytes that fit, a
scattered write takes any number of the bytes offered or fails, a coroutine ends its turn in any state.

Where the code differs from what one would expect, the model follows the code. The handler of multipart data replaces
what it was given before, so data with a CR comes back without what is before its last piece. A multipart boundary
match that fails gives back only the matched part of the boundary, so the CR LF and two hyphens before it are lost.
Two hyphens side by side before the first boundary are an error unless the boundary follows. A pattern with a literal
part below a wild child takes the place of the wild child's pattern. Splitting a path never takes the byte after a
delimiter for a delimiter. An empty pattern replaces the pattern of its node by none, so the path "/" may lose its
route. A timer that is due at once before the first tick has no slot, and a rotation that comes a whole wheel late
leaves timers that are due in the wheel. In a list of connection or encoding words an empty element, a beginning of a
word or a tab hides words behind it. The digit table of chunk sizes is only half filled: a byte from 128 on counts as
the digit 0. A chunk size may be at most 2^64 - 17 and a Content-Length at most 2^64 - 7. The mark for
Transfer-Encoding is set by names that only begin with it. The first byte of a header value is not checked, a word at
the end of a Connection or Transfer-Encoding line is forgotten if the value goes on in the next line, and the bytes of
a trailer count towards the header size of the next request. The JSON reader takes a single quote for the start of a
comment, a minus sign alone for 0, any four digits for the second half of a surrogate pair, and a comment with any
token behind it for the comma between members; an object may end behind a comma if the name before is empty. A
WebSocket handler call returns after each frame. A ping inside a message takes the fragments before it away; a pong,
like any unknown opcode, closes the connection. A coroutine that waits ends its pass. The writer's quoting test, which
looks like an optimisation, holds for every string that is not empty.

## Model

| member | source | states |
|---|---|---|
| `LockfreeQueue.FifoOverRuns` | src/util/lockfree_queue.h:28-72 | Over every interleaving of any number of threads whose swaps see less than a full lap: the popped values are a prefix of the published ones and these of the claimed ones, nothing is lost or duplicated, and the ring never holds more than capacity - 1 values |
| `LockfreeQueue.StepInv` | src/util/lockfree_queue.h:28-72 | Every atomic step of the four operations keeps the invariant that ties the three ring indices to unbounded tickets, each slot to its value and each thread to its place in its operation |
| `LockfreeQueue.StepRefinesFifo` | src/util/lockfree_queue.h:28-72 | Every atomic step is a step of a FIFO queue: an append of the thread's own value, a removal of the head, or no change |
| `LockfreeQueue.OneOwner` | src/util/lockfree_queue.h:31-42 | Every claimed ticket that is not published has exactly one owning producer |
| `LockfreeQueue.PublishIsOldest` | src/util/lockfree_queue.h:38-40 | The swap of `back_` succeeds exactly for the owner of the oldest unpublished ticket, so values are published in the order they were claimed |
| `LockfreeQueue.OldestCanPublish` | src/util/lockfree_queue.h:36-40 | The owner of the oldest unpublished ticket can always publish it, in at most two steps of its own |
| `LockfreeQueue.TakeIsCurrent` | src/util/lockfree_queue.h:47-51 | When the swap of `front_` succeeds, the value read before it is the head of the queue |
| `LockfreeQueue.PushUncontended` | src/util/lockfree_queue.h:28-43 | A push without interference on a ring with room appends its value and moves both indices |
| `LockfreeQueue.PopUncontended` | src/util/lockfree_queue.h:45-54 | A pop without interference on a ring that is not empty removes the head |
| `LockfreeQueue.PushRefused` | src/util/lockfree_queue.h:28-35 | A push on a full ring returns after its test and the whole state is as before |
| `LockfreeQueue.PopRefused` | src/util/lockfree_queue.h:45-49 | A pop on an empty ring returns after its test and the whole state is as before |
| `LockfreeQueue.LapBreaksFifo` | src/util/lockfree_queue.h:45-54 | The bound on the window is needed: a concrete run in which a consumer sleeps for one lap and then returns a value that another consumer already has |
| `LockfreeQueue.LapOverfills` | src/util/lockfree_queue.h:28-43 | The bound is needed for `write_` too: a concrete run in which a producer sleeps for one lap, claims a slot of a full ring and leaves a ring that holds two values and looks empty |
| `LockfreeCalls.PushEnds` | src/util/lockfree_queue.h:28-43 | A push ends only by publishing exactly its own value or at a full test that has just failed |
| `LockfreeCalls.PopEnds` | src/util/lockfree_queue.h:45-54 | A pop ends only by taking the value it read or at an empty test that has just failed |
| `LockfreeCalls.SwapFails` | src/util/lockfree_queue.h:31-51 | A swap of `write_` or `front_` that fails leaves the call open with the same value, and fails only because another call has claimed or taken since |
| `LockfreeCalls.TurnedAwayFull` | src/util/lockfree_queue.h:32-33 | A push whose index is current is turned away exactly if capacity - 1 values are claimed and not popped |
| `LockfreeCalls.LoserClaims` | src/util/lockfree_queue.h:31-36 | After a lost race a push claims and fills a slot in its next four steps if there is room, whatever other claims wait |
| `LockfreeCalls.LoserAppends` | src/util/lockfree_queue.h:31-42 | Run alone, a push that loses the race for `write_` has appended its value after six steps, the failed swap included, if there is room |
| `LockfreeCalls.LoserTakes` | src/util/lockfree_queue.h:45-54 | Run alone, a pop that loses the race for `front_` has taken the head after five steps, if there is one |
| `LockfreeCalls.EveryCall` | src/util/lockfree_queue.h:28-72 | Over every run: the calls of a thread are those that have ended, in order, and the one under way; the values published and taken are those of the calls that ended so, each once; and calls are turned away only at a test that fails |
| `LockfreeQueue.RingHoldsItems` | src/util/lockfree_queue.h:22-54 | In every reachable state the slots between `front_` and `back_` are the published values not yet popped |
| `LockfreeQueue.Queue.MultiplePush` | src/util/lockfree_queue.h:28-43 | Run alone, the push appends or refuses at capacity - 1 values |
| `LockfreeQueue.Queue.MultiplePop` | src/util/lockfree_queue.h:45-54 | Run alone, the pop returns and removes the head or refuses when empty |
| `LockfreeQueue.Queue.SinglePush` | src/util/lockfree_queue.h:56-64 | As MultiplePush, for the single-producer mode |
| `LockfreeQueue.Queue.SinglePop` | src/util/lockfree_queue.h:66-72 | As MultiplePop, for the single-consumer mode |
| `HttpParser.PushParser.Execute` | src/httpserver/http_parser.cc:641-2154 | The parser with its bulk loops, marks and re-executed bytes does to its fields and to the callback stream what the byte-at-a-time parser does; it fails exactly when that fails, with the same error at the same byte unless the header is too long, and otherwise returns the number of bytes taken |
| `HttpParser.PushParser.ScanField` | src/httpserver/http_parser.cc:1256-1391 | The loop over a header name is the same as its bytes one by one, whatever the buffer boundaries |
| `HttpParser.PushParser.ScanValue` | src/httpserver/http_parser.cc:1482-1706 | The loop over a header value, with its search for the end of an uninteresting value, is the same as its bytes one by one |
| `HttpParser.PushParser.ScanBody` | src/httpserver/http_parser.cc:1944-1979 | Taking as much of a body or chunk as the buffer holds is the same as taking its bytes one by one |
| `HttpParser.PushParser.FlushMarks` | src/httpserver/http_parser.cc:2135-2145 | At the end of a buffer at most one mark is set, and reporting it leaves the callback stream of all bytes so far |
| `HttpParser.BodyRun` | src/httpserver/http_parser.cc:2078-2099 | Any part of a body reports its bytes as one piece and counts them down from the expected length |
| `HttpStream.RunConcat` | src/httpserver/http_parser.cc:641-2147 | The stream may be cut anywhere: the second part goes on from the state, the header size and the callback stream the first left |
| `HttpFraming.SplitInvariant` | src/httpserver/http_parser.cc:641-2147 | If one call takes all of a ++ b, a call on a and a call on b take everything and leave the same fields and the same glued callback stream |
| `HttpFraming.FeedInTwo` | src/httpserver/http_parser.cc:641-2147 | The same for two parser objects, one fed once and one fed twice |
| `HttpStream.RunInv` | src/httpserver/http_parser.cc:641-2147 | The parser's invariant holds in every state reachable by any stream of bytes |
| `HttpStream.AssertionsHold` | src/httpserver/http_parser.cc:1369-1371 | At every byte of every sequence of calls, also after the parser was left for an upgrade, the source's assertions hold: resolved header states, nread 1 at a chunk size, the chunked flag in chunk states, lengths neither 0 nor all ones in bodies |
| `HttpStep.AgainGoesDown` | src/httpserver/http_parser.cc:718-750 | Re-executing a byte terminates: every pass that asks for another one lowers a rank |
| `HttpMethods.MethodRecognised` | src/httpserver/http_parser.cc:927-1022 | A word followed by a blank is taken as a method if and only if it is the name of one of the 34 methods, and then as that method |
| `HttpMethods.WordRead` | src/httpserver/http_parser.cc:971-1022 | While a word is read the current guess always names a method that begins with it; otherwise the parser has failed |
| `HttpHeaders.NameRecognised` | src/httpserver/http_parser.cc:1206-1391 | A header name is reported as one piece; the matcher resolves it to connection, content-length, transfer-encoding or upgrade exactly for those names, in any case of letters |
| `HttpHeaders.ResolvedNames` | src/httpserver/http_parser.cc:1270-1372 | After a complete name each resolved state means exactly one name (two for connection) |
| `HttpHeaders.ContentLengthExact` | src/httpserver/http_parser.cc:1436-1447 | A Content-Length is read exactly and accepted if and only if it is at most 2^64 - 7; it is never the all-ones value |
| `HttpHeaders.NextDigit` | src/httpserver/http_parser.cc:1545-1571 | One more digit is refused exactly when the length would exceed 2^64 - 7, so the 64-bit accumulator never wraps |
| `HttpValues.ListValue` | src/httpserver/http_parser.cc:1393-1772 | The value of Connection or Transfer-Encoding is reported as one piece, and when the next line begins the flags are what the elements between its commas say |
| `HttpValues.WholeValue` | src/httpserver/http_parser.cc:1408-1706 | The same for the matcher on a value from its first byte on |
| `HttpValues.HeardExact` | src/httpserver/http_parser.cc:1617-1706 | keep-alive, close and upgrade are set if and only if an element that is looked at is that word |
| `HttpValues.ChunkedExact` | src/httpserver/http_parser.cc:1585-1616 | The body is chunked if and only if the last element is looked at and is that word |
| `HttpValues.ElementIsWord` | src/httpserver/http_parser.cc:1585-1706 | An element counts as a word exactly if it is the word in any case, after spaces and before spaces |
| `HttpValues.OrderlyReached` | src/httpserver/http_parser.cc:1585-1706 | Every element is looked at when none but the last is empty, a beginning of a word, or begins with a byte that is not of a token |
| `HttpValues.LostAfterEmpty` | src/httpserver/http_parser.cc:1617-1640 | In "close,,keep-alive" the word behind the empty element does not count; the first one does |
| `HttpValues.LostAfterBeginning` | src/httpserver/http_parser.cc:1653-1662 | In "c,close" nothing counts: the comma behind the beginning of a word is lost |
| `HttpValues.LostAfterTab` | src/httpserver/http_parser.cc:1617-1640 | In "close," followed by a tab and "keep-alive" the word behind the tab does not count: lowered like a letter, a tab is a parenthesis |
| `HttpValues.LostInStream` | src/httpserver/http_parser.cc:1393-1772 | After a Connection header with the value "close,,keep-alive" the connection counts as closing, and nothing else |
| `HttpFraming.SizeExact` | src/httpserver/http_parser.cc:1996-2047 | A text without CR, semicolon and blank is accepted as a chunk size if and only if all its bytes are digits of the decoder's table and its value is at most 2^64 - 17, and the size is that value; the table has the digit 0 for every byte from 128 on |
| `HttpFraming.SizeIsHex` | src/httpserver/http_parser.cc:224-233 | An accepted chunk size is a hexadecimal number with the value the parser goes on with if and only if none of its bytes is 128 or above |
| `HttpFraming.HighByteSize` | src/httpserver/http_parser.cc:1996-2060 | The byte 128 alone is taken as the last chunk, and "1" with that byte behind it as a chunk of sixteen bytes |
| `HttpFraming.HexRoundTrip` | src/httpserver/http_parser.cc:1996-2047 | Hexadecimal printing and reading are inverse |
| `HttpFraming.ChunkRoundTrip` | src/httpserver/http_parser.cc:2012-2116 | One printed chunk is taken exactly and reported as chunk header, its bytes in one piece and chunk complete |
| `HttpFraming.ChunkedRoundTrip` | src/httpserver/http_parser.cc:1996-2116 | Any body cut into non-empty chunks and printed is taken exactly, reported chunk by chunk, and ends the message |
| `HttpFraming.BodyEventsMean` | src/httpserver/http_parser.cc:1987-2116 | In those events the body pieces spell the body and there is exactly one end of message |
| `HttpTarget.TargetRead` | src/httpserver/http_parser.cc:1024-1096 | A text before a blank or a line end is taken as the target if and only if it is one by the grammar of paths, queries, fragments, schemes and authorities, and is reported as one piece |
| `HttpTarget.WalkExact` | src/httpserver/http_parser.cc:493-640 | The URL states take exactly the texts of that grammar |
| `HttpRequest.LineRead` | src/httpserver/http_parser.cc:927-1204 | A request line, behind any empty lines and with either line end, begins a message, reports the target as one piece, and leaves the method and the digits of its version, or 0.9 without one |
| `HttpRequest.HeaderRead` | src/httpserver/http_parser.cc:1206-1792 | A header line with any gap behind the colon and a value in one line or several: name and value are one piece each, and the parser knows what the line adds: a length, list flags, an upgrade or the encoding mark |
| `HttpRequest.FoldRead` | src/httpserver/http_parser.cc:1708-1757 | The bytes of a continued line are part of the same piece; a length goes on with blanks only, a list only where an element would begin, and any other matcher is lost |
| `HttpRequest.FoldForgets` | src/httpserver/http_parser.cc:1719-1757 | A word at the end of a line sets its flag if the header ends there and not if the value goes on |
| `HttpRequest.FoldedDigit` | src/httpserver/http_parser.cc:1719-1757 | A digit of a length in a continued line is an error |
| `HttpMessages.HeadersRead` | src/httpserver/http_parser.cc:1206-1792 | Any header lines, one by one, and what they say together |
| `HttpMessages.HeadEnds` | src/httpserver/http_parser.cc:1795-1942 | The blank line: what follows is no body, a counted body, chunks, another protocol or an error, by the method and by what the headers said |
| `HttpMessages.HeadRead` | src/httpserver/http_parser.cc:927-1942 | From any parser between two messages the head of a request makes exactly these callbacks and leaves the parser, with all its fields, in that state: the message complete at the blank line without a length or with the length 0, the body expected for a length, a chunk size for chunked, an error for a Transfer-Encoding without chunked or with a Content-Length |
| `HttpMessages.SizedBody` | src/httpserver/http_parser.cc:1944-1992 | Exactly as many bytes as announced are the body, in one piece, and then the message is complete |
| `HttpMessages.SecondLength` | src/httpserver/http_parser.cc:1436-1447 | A request is refused at the first digit of its second Content-Length, wherever the two headers stand |
| `HttpMessages.GatheredSane` | src/httpserver/http_parser.cc:1436-1447 | A length is known exactly if there is a Content-Length, and is never the value that stands for an unknown one |
| `HttpConnection.MessageRead` | src/httpserver/http_parser.cc:927-2116 | A whole request with the body its head announces: exactly its bytes are taken, target, headers and body are reported once and in order, there is one end of message, and behind it the parser waits for a request if the version is 1.1 without close or keep-alive was asked for, is dead otherwise, or has left |
| `HttpConnection.Pipeline` | src/httpserver/http_parser.cc:641-2147 | Requests one behind the other on a connection are read one by one, with chunked, counted and no bodies in any order |
| `HttpConnection.ChunkedRead` | src/httpserver/http_parser.cc:1996-2116 | A chunked body with sizes in any spelling, extensions and a trailer reports the data chunk by chunk and the trailer as headers, which count as those of the head do |
| `HttpConnection.SizeLineRead` | src/httpserver/http_parser.cc:1996-2076 | The size of a chunk is what its digits spell, whatever its extension says |
| `HttpConnection.DeadStream` | src/httpserver/http_parser.cc:721-730 | Behind a message that does not keep the connection, line ends are passed over and anything else is an error |
| `HttpRefusals.VersionExact` | src/httpserver/http_parser.cc:1097-1193 | Between target and line end exactly blanks and a version are taken |
| `HttpRefusals.NameExact` | src/httpserver/http_parser.cc:1206-1391 | A text before a colon is a header name if and only if its bytes are token characters |
| `HttpRefusals.ValueExact` | src/httpserver/http_parser.cc:1482-1543 | The bytes of a value that is not a length, but for its first, are taken if and only if none is a control byte |
| `HttpRefusals.FirstUnchecked` | src/httpserver/http_parser.cc:1393-1480 | As the first byte of a value a control byte is taken |
| `HttpRefusals.LengthExact` | src/httpserver/http_parser.cc:1545-1583 | Behind the first digit of a length exactly digits and then blanks are taken, and no length above the limit |
| `HttpRefusals.NoLengthGiven` | src/httpserver/http_parser.cc:1759-1792 | A Content-Length without a value is an error |
| `HttpRefusals.ReturnTaken` | src/httpserver/http_parser.cc:641-2147 | A carriage return, wherever it is taken outside of bodies and between messages, leads to a state behind a return |
| `HttpRefusals.OnlyFeed` | src/httpserver/http_parser.cc:1195-1204 | In these states nothing but a line feed is taken |
| `HttpRefusals.ChunkEndExact` | src/httpserver/http_parser.cc:2101-2116 | Behind the data of a chunk exactly CR LF is taken |
| `HttpFraming.BlankLine` | src/httpserver/http_parser.cc:1795-1804 | The empty trailer after the last chunk completes the chunk and the message, or leaves the parser after an upgrade |
| `JsonRoundTrip.RoundTrip` | src/util/json/json_reader.cc:1079-1168 | Reading the text printed for a value gives the value back and takes exactly that text, whatever may follow it, if and only if the nesting is within the limit; otherwise the reader throws |
| `JsonRoundTrip.DocumentRoundTrip` | src/util/json/json_reader.cc:1031-1077 | A whole printed document parses to the same value, integers compared by value, exactly if its depth is at most 1000 |
| `JsonRoundTrip.Transmit` | src/util/json/json_writer.cc:360-366 | Writer object and reader object together: the value read is the value written |
| `JsonRoundTrip.CanonicalIsSame` | src/util/json/json_reader.cc:1574-1580 | The form in which the reader stores numbers differs from the original only in signedness |
| `JsonRoundTrip.ItemsTrip` | src/util/json/json_reader.cc:1494-1530 | The items of a printed array come back in order |
| `JsonRoundTrip.MembersTrip` | src/util/json/json_reader.cc:1432-1492 | The members of a printed object come back under their names in the order of the names |
| `JsonRoundTrip.PutLast` | src/util/json/json_reader.cc:1470-1473 | Storing a member whose name comes after all others appends it |
| `JsonRoundTrip.StringRead` | src/util/json/json_reader.cc:1641-1692 | For every string in UTF-8 the string token ends at the printed closing quote, and its decoded value is the string |
| `JsonRoundTrip.BodyRead` | src/util/json/json_writer.cc:286-336 | The same for the text between the quotes, by whole characters |
| `JsonRoundTrip.UnitRead` | src/util/json/json_writer.cc:287-334 | What is printed for one character is scanned over whole and decodes to the bytes of the character |
| `JsonRoundTrip.CharacterCodes` | src/util/json/json_tool.h:39-65 | Decoding a well-formed UTF-8 character gives a scalar value whose encoding is the character |
| `JsonRoundTrip.EscapeRead` | src/util/json/json_reader.cc:1694-1746 | A printed escape, with a surrogate pair for supplementary planes, decodes to its code point and is taken exactly |
| `JsonRoundTrip.IntegerRead` | src/util/json/json_reader.cc:1542-1581 | A printed 64-bit integer above -2^63 is decoded to the same number |
| `JsonRoundTrip.IntegerToken` | src/util/json/json_reader.cc:1382-1407 | A printed integer is one number token, whatever may follow a value |
| `JsonRoundTrip.DecimalRead` | src/util/json/json_tool.h:81-87 | Decimal printing and reading are inverse |
| `JsonReader.DecodeNumber` | src/util/json/json_reader.cc:1542-1581 | The overflow test is exact: the integer path is taken if and only if the token is digits whose value fits the bound, and the accumulator never wraps |
| `JsonReader.Overflows` | src/util/json/json_reader.cc:1561-1571 | A digit that the loop refuses belongs to a number above the bound |
| `JsonReader.DecodeString` | src/util/json/json_reader.cc:1641-1692 | The unescaping loop computes the unescaped string, or fails on an incomplete or unknown escape |
| `JsonReader.DecodeUnicodeCodePoint` | src/util/json/json_reader.cc:1694-1719 | Reads four hexadecimal digits or a surrogate pair |
| `JsonReader.DecodeUnicodeEscapeSequence` | src/util/json/json_reader.cc:1721-1746 | The loop over four digits reads their value or fails |
| `JsonReader.Reader.ReadString` | src/util/json/json_reader.cc:1408-1418 | The scanning loop stops after the first quote that is not escaped |
| `JsonReader.Reader.ReadNumber` | src/util/json/json_reader.cc:1382-1407 | The scanning loops pass integral part, fraction and exponent |
| `JsonReader.Reader.Match` | src/util/json/json_reader.cc:1290-1299 | The backwards comparison takes the word exactly if the text begins with it |
| `JsonReader.Reader.ReadToken` | src/util/json/json_reader.cc:1180-1278 | Blanks are skipped and the next token is taken, with its kind, text and end |
| `JsonReader.Reader.SkipComments` | src/util/json/json_reader.cc:1170-1178 | Comments before a token are passed |
| `JsonReader.Reader.ReadCStyleComment` | src/util/json/json_reader.cc:1357-1364 | A block comment ends at its first closing mark; at the end of the text it is accepted if the last byte is a slash |
| `JsonReader.Reader.ReadValue` | src/util/json/json_reader.cc:1079-1168 | Reads one value onto the top of the stack of values, fails, or throws at the stack limit; the values below are not touched |
| `JsonReader.Reader.ReadArray` | src/util/json/json_reader.cc:1494-1530 | The loop over items builds the array |
| `JsonReader.Reader.ReadObject` | src/util/json/json_reader.cc:1432-1492 | The loop over members builds the object; a repeated name keeps the last value, and the empty name is treated as the source treats it |
| `JsonLayout.PutExact` | src/util/json/json_reader.cc:1470-1473 | Storing a member in the sorted members of an object: they stay sorted, its name has the new value and every other name has what it had |
| `JsonLayout.ObjectMeans` | src/util/json/json_reader.cc:1432-1492 | Members in any order and with repeated names mean the sorted map in which every name has its last value |
| `JsonLayout.SameLookups` | src/util/json/json_reader.cc:1470-1473 | Sorted members are determined by what is looked up in them |
| `JsonLayout.TreeRead` | src/util/json/json_reader.cc:1079-1168 | Every layout of a value, with blanks and comments between its tokens, strings and numbers in any spelling and members in any order, is read as what it means and taken exactly, if and only if it does not nest too deep |
| `JsonLayout.DocumentRead` | src/util/json/json_reader.cc:1031-1077 | The same for a document with spaces before it |
| `JsonLayout.SpellingRead` | src/util/json/json_reader.cc:1641-1746 | A character spelled as itself, as an escape of one letter (the slash included), or in hexadecimal digits of either case, is scanned whole and decodes to its bytes |
| `JsonLayout.SurrogatePair` | src/util/json/json_reader.cc:1694-1719 | Two halves of a surrogate pair are the character of the supplementary plane |
| `JsonLayout.NumberRead` | src/util/json/json_reader.cc:1382-1407 | A number with fraction and exponent is one token; without them it is an integer exactly if it fits 64 bits |
| `JsonLayout.GapPassed` | src/util/json/json_reader.cc:1170-1178 | Blanks and comments of both kinds before a token do not matter |
| `JsonAccepted.ValueFound` | src/util/json/json_reader.cc:1079-1168 | Every text that a value is made of is one of the layouts, and the value is what the layout means, so a text that is none is refused |
| `JsonAccepted.DocumentFound` | src/util/json/json_reader.cc:1031-1077 | The same for documents, nested no deeper than the limit |
| `JsonAccepted.ItemsFound` | src/util/json/json_reader.cc:1494-1530 | Items are taken only with commas between them and a bracket behind the last |
| `JsonAccepted.MembersFound` | src/util/json/json_reader.cc:1432-1492 | Members are taken only with a name, a colon, a value, and a comma or a comment between them, and a brace behind the last |
| `JsonAccepted.BodyFound` | src/util/json/json_reader.cc:1641-1692 | A string that decodes is spelled in one of those ways, and decodes to what is spelled |
| `JsonAccepted.NumberFound` | src/util/json/json_reader.cc:1382-1407 | A number token is a sign, digits, a fraction and an exponent |
| `JsonAccepted.GapFound` | src/util/json/json_reader.cc:1180-1278 | What stands before a token is blanks and comments |
| `JsonAccepted.MinusAlone` | src/util/json/json_reader.cc:1542-1581 | The text "-" is read as the number 0 |
| `JsonAccepted.ClosedBehindComma` | src/util/json/json_reader.cc:1436-1445 | An object whose last name is empty may end with a comma |
| `JsonAccepted.CommentForComma` | src/util/json/json_reader.cc:1476-1490 | Behind a comment after a member's value any token is passed over like the comma |
| `JsonReader.Reader.ReadDocument` | src/util/json/json_reader.cc:1031-1077 | Reads a document; what follows the value is not looked at |
| `JsonWriter.UintToString` | src/util/json/json_tool.h:81-87 | Digits written backwards into a 25-byte buffer are the decimal text, and always fit |
| `JsonWriter.IntToString` | src/util/json/json_writer.cc:92-106 | The decimal text of a signed 64-bit integer, -2^63 included |
| `JsonWriter.Utf8ToCodepoint` | src/util/json/json_writer.cc:191-239 | The code point and the last byte of the character at a position; ill-formed bytes give U+FFFD |
| `JsonWriter.IsAnyCharRequiredQuoting` | src/util/json/json_writer.cc:179-189 | With signed plain characters the test holds for every string that is not empty |
| `JsonWriter.ValueToQuotedStringN` | src/util/json/json_writer.cc:270-337 | The quoting loop prints the quoted string |
| `JsonWriter.FastWriter.WriteValue` | src/util/json/json_writer.cc:368-420 | Appends the text of a value to the document |
| `JsonWriter.FastWriter.Write` | src/util/json/json_writer.cc:360-366 | The document of a value is its text and a line feed |
| `MultipartStep.Parser.Execute` | src/httpserver/multipartparser.cc:107-321 | The parser with its bulk loops, fall-throughs and re-executed bytes makes the calls, and has the final state and the error position, of the byte-at-a-time parser |
| `MultipartStep.Parser.Pass` | src/httpserver/multipartparser.cc:116-312 | One pass of the loop, with all bytes it takes, is the same as those bytes one by one |
| `MultipartStep.Parser.RunField` | src/httpserver/multipartparser.cc:157-183 | The loop over a name and its end |
| `MultipartStep.Parser.Reexecute` | src/httpserver/multipartparser.cc:237-262 | Held-back bytes become data and the byte is looked at again |
| `MultipartStep.Parser.PassBoundary` | src/httpserver/multipartparser.cc:264-281 | A failed boundary match gives back the matched part of the boundary only |
| `MultipartStep.Parser.constructor` | src/httpserver/multipartparser.cc:92-100 | A boundary shorter than the buffer is stored and the parser waits for the preamble |
| `MultipartStep.RunConcat` | src/httpserver/multipartparser.cc:107-321 | Splitting the input anywhere does not change events, state or error position |
| `MultipartStep.CallsReport` | src/httpserver/multipartparser.cc:107-321 | However a buffer is cut into callbacks, the callbacks report what its bytes mean one by one |
| `MultipartStep.PieceSeen` | src/httpserver/multipartparser.cc:157-235 | A run of name, value or data bytes in one buffer makes exactly one callback |
| `MultipartBody.BodyRun` | src/httpserver/multipartparser.cc:135-312 | The printed body is taken whole and reports exactly the events of its parts |
| `MultipartRoundTrip.DataKept` | src/httpserver/multipartparser.cc:222-281 | Data is kept by the parser if and only if it does not contain CR LF and two hyphens, whatever the boundary is |
| `MultipartRoundTrip.FourBytesLost` | src/httpserver/multipartparser.cc:245-281 | For the boundary "b" the data CR LF, two hyphens, "x" is reported as "x" |
| `MultipartRoundTrip.DataRun` | src/httpserver/multipartparser.cc:222-262 | Without those four bytes everything is reported except a possible start of a delimiter at the end |
| `MultipartRoundTrip.CountRun` | src/httpserver/multipartparser.cc:222-281 | The parser never reports more data than it was given |
| `MultipartBody.PartData` | src/httpserver/multipartparser.cc:222-281 | Whatever the data of a part is, as long as no delimiter is complete in it: what is reported is the data without the CR LF and two hyphens of every match that fails, and the delimiter behind it is taken |
| `MultipartBody.HeadersRun` | src/httpserver/multipartparser.cc:157-220 | The printed headers are reported name by name and value by value |
| `MultipartBody.RoundTrip` | src/httpserver/httprequest.cc:144-187 | A printed body that is parsed in one call: every part comes back in order, with its headers by name, and with its data if and only if there was at most one callback for it |
| `MultipartBody.BodySeen` | src/httpserver/multipartparser.cc:135-312 | The callbacks for a printed body in one call: one for each name and value, one for each piece of the data, and the signals between |
| `MultipartBody.DataSeen` | src/httpserver/multipartparser.cc:222-281 | Any data in which no delimiter is complete makes one callback for every run without CR, one for every beginning of a delimiter that is given up, and one with the matched part of the boundary for every match that fails |
| `MultipartBody.FailedMatch` | src/httpserver/multipartparser.cc:264-281 | For every boundary, every number k of its bytes and every byte that does not go on with it: CR LF, two hyphens, these k bytes and that byte report exactly the k bytes, in one callback, and the byte is data |
| `MultipartBody.StrippedExact` | src/httpserver/multipartparser.cc:222-281 | What is reported of data is the data exactly if it has no CR LF and two hyphens |
| `MultipartBody.StrippedByte` | src/httpserver/multipartparser.cc:222-281 | Said byte by byte: unless CR LF and two hyphens begin there, one byte more is reported; where they begin and the match fails, the matched part of the boundary and what follows it |
| `MultipartEnvelope.Envelope` | src/httpserver/multipartparser.cc:122-133 | A text before the first boundary without two hyphens side by side, and any text behind the last, change nothing |
| `MultipartEnvelope.FirstExact` | src/httpserver/multipartparser.cc:122-155 | Behind the first two hyphens the boundary and a line end must follow at once; anything else is an error |
| `MultipartEnvelope.NameExact` | src/httpserver/multipartparser.cc:157-183 | A text up to a colon is taken as a header name if and only if all its bytes are those of a name |
| `MultipartEnvelope.DelimiterExact` | src/httpserver/multipartparser.cc:283-312 | Behind a complete delimiter come a line end, before another part, or two hyphens, before the end, and nothing else |
| `MultipartEnvelope.FeedExact` | src/httpserver/multipartparser.cc:207-220 | Behind a carriage return in the headers only a line feed is taken |
| `MultipartBody.KeptExact` | src/httpserver/httprequest.cc:183-187 | What is left of some data after its callbacks is the data if and only if it has no CR, or is CR, CR LF or CR LF and a hyphen |
| `MultipartBody.DataReplaced` | src/httpserver/httprequest.cc:23-26 | The input "a", CR, "b": three callbacks, each of which replaces the data, leave "b" |
| `MultipartBody.StoredExact` | src/httpserver/httprequest.cc:179-180 | Headers of different names are all kept |
| `MultipartBody.HttpRequestMultipartBody.SetData` | src/httpserver/httprequest.cc:144-148 | Parses some of a body: false for an empty boundary; otherwise the handlers have handled the calls of this input in order, and the result says whether all of it was taken |
| `MultipartBody.HttpRequestMultipartBody.HandleHeaderValue` | src/httpserver/httprequest.cc:161-181 | A value is stored under the name that was waiting for it |
| `MultipartBody.HttpRequestMultipartBody.HandleData` | src/httpserver/httprequest.cc:183-187 | A piece of data replaces the data of the last part |
| `MultipartBody.Transmit` | src/httpserver/httpsession.cc:146-177 | Printer, parser and handlers as objects, with the announced length in 32 bits |
| `MultipartTrip.SendMultipart` | src/httpserver/httpsession.cc:146-177 | The packets spell the line break and the body; the announced length is the size of the body in a 32-bit integer |
| `MultipartTrip.WrapAdd` | src/httpserver/httpsession.cc:157-161 | Adding up in 32 bits gives the sum in 32 bits |
| `MultipartTrip.MultipartPart.HeaderStr` | src/httpserver/httprequest.cc:77-84 | Builds the header text once and returns the cached text afterwards |
| `ByteBuffers.ByteBuffer.constructor` | src/tcpserver/bytebuffer.h:42-48 | An empty buffer of 8 + 1024 bytes, whatever size is asked for |
| `ByteBuffers.ByteBuffer.ExtendSpace` | src/tcpserver/bytebuffer.cc:101-120 | Both branches keep the readable bytes, leave room for the requested length and keep the indices in range |
| `ByteBuffers.ByteBuffer.Append` | src/tcpserver/bytebuffer.cc:37-43 | The readable bytes grow by the appended ones |
| `ByteBuffers.ByteBuffer.ReadBytes` | src/tcpserver/bytebuffer.cc:54-61 | Bytes are taken from the front; an emptied buffer starts again at its first byte |
| `ByteBuffers.ByteBuffer.ReadSome` | src/tcpserver/bytebuffer.cc:122-127 | Takes exactly the requested bytes or nothing |
| `ByteBuffers.ByteBuffer.ReadToBuffer` | src/tcpserver/bytebuffer.cc:129-134 | Moves exactly the requested bytes to another buffer or nothing |
| `ByteBuffers.ByteBuffer.Readv` | src/tcpserver/bytebuffer.cc:8-35 | A scattered read into the buffer and a stack block appends all bytes that arrived |
| `WebSocketMessages.Reassembly` | src/httpserver/websocket.cc:61-134 | For masked, possibly fragmented messages in any chunks and any schedule of handler calls: the messages delivered are a prefix of those sent, with kind and whole payload, and all of them once everything has arrived and no complete frame waits in the buffer |
| `WebSocketMessages.AnySchedule` | src/httpserver/websocket.cc:61-134 | For any bytes at all, what is done under any schedule is a prefix of what the stream means, and all of it once no complete frame waits |
| `WebSocketMessages.CallsDrain` | src/httpserver/websocket.cc:61-134 | Every call takes one of the complete frames that wait in the buffer, so none waits after exactly as many calls as there were frames |
| `WebSocketMessages.OneCallEach` | src/httpserver/websocket.cc:61-134 | With one call of the handler for each read no frame is ever left waiting if and only if no read completes more than one frame |
| `WebSocketMessages.ReadsDeliver` | src/httpserver/websocket.cc:61-134 | Such reads deliver all messages by the time the last byte has been read |
| `WebSocketFrames.HandleStep` | src/httpserver/websocket.cc:61-134 | A call of the handler keeps what the stream means, wherever the chunks end |
| `WebSocketMessages.FrameRead` | src/httpserver/websocket.cc:145-182 | A frame adds its unmasked payload to the message and delivers it if it is final |
| `WebSocketMessages.FragmentsRead` | src/httpserver/websocket.cc:145-182 | The fragments of a message are unmasked each with its own mask and delivered as one payload |
| `WebSocketMessages.FrameTaken` | src/httpserver/websocket.cc:61-134 | One call on a buffer that begins with a frame of any opcode takes exactly that frame, and says that a message is finished exactly if the final bit is set |
| `WebSocketTraffic.Traffic` | src/httpserver/websocket.cc:61-204 | For streams of messages and pings that may end in a close, an unknown opcode or a frame without a mask, in any chunks and any schedule: every ping has exactly one pong and changes no message, a close is answered or notified and the connection closed, anything else closes it; the actions done are a prefix of these, and all of them once no complete frame waits |
| `WebSocketTraffic.PingRead` | src/httpserver/websocket.cc:197-200 | A ping gives one pong and leaves the handler as it is between messages |
| `WebSocketTraffic.CloseRead` | src/httpserver/websocket.cc:184-196 | A close is answered with a close, or is the answer to one, and the connection is closed |
| `WebSocketTraffic.UnknownRead` | src/httpserver/websocket.cc:201-204 | Any other opcode closes the connection |
| `WebSocketTraffic.PingInside` | src/httpserver/websocket.cc:145-204 | A ping inside a message is answered, and what is delivered then is only the payload of the fragments behind it |
| `WebSocketMessages.MiniRead` | src/httpserver/websocket.cc:61-88 | The two header bytes give back opcode, final bit, mask bit and length code |
| `WebSocketFrames.MaskTwice` | src/httpserver/websocket.cc:146-148 | Masking a masked payload again gives the payload |
| `WebSocketFrames.BigEndianRoundTrip` | src/httpserver/websocket.cc:90-108 | Lengths in network byte order are read back |
| `WebSocketSession.WebSocket.HandleMessage` | src/httpserver/websocket.cc:61-134 | The handler on its buffers and fields does what the handler on values does |
| `WebSocketSession.WebSocket.HandleFragment` | src/httpserver/websocket.cc:145-204 | The end of a frame: unmasking in place, delivery, answers to control frames |
| `WebSocketSession.WebSocket.Unmask` | src/httpserver/websocket.cc:146-150 | The loop unmasks the last frame's payload in place and nothing else |
| `WebSocketSession.WebSocket.BuildHeader` | src/httpserver/websocket.cc:272-287 | The header of a sent frame in the 7, 16 or 64-bit form |
| `WebSocketSession.HeaderRoundTrip` | src/httpserver/websocket.cc:272-287 | The length in that header is read back exactly whatever follows, and the form is the shortest that fits |
| `ByteDatas.ByteData.Writev` | src/tcpserver/bytedata.cc:68-90 | Under any answer of the kernel the bytes written and the bytes pending are together what they were, in order |
| `ByteDatas.ByteData.AddDataZeroCopy` | src/tcpserver/bytedata.cc:15-21 | The bytes of all packets grow by those in the caller's memory |
| `ByteDatas.ByteData.AddDataCopy` | src/tcpserver/bytedata.cc:27-34 | The bytes of all packets grow by the data, and the new packet does not depend on the caller's memory |
| `ByteDatas.ByteData.AddFile` | src/tcpserver/bytedata.cc:57-66 | The bytes of all packets grow by the contents of the file |
| `ByteDatas.ByteData.ModifyIndexAndOffset` | src/tcpserver/bytedata.cc:108-121 | The cursor moves to the packet that holds the first unwritten byte |
| `ByteDatas.ByteData.CopyDataIfNeed` | src/tcpserver/bytedata.cc:96-106 | The pending bytes stay the same and no longer depend on the caller's memory |
| `ByteDatas.PacketCopied` | src/tcpserver/bytedata.h:39-47 | Copying one packet from its offset on keeps what is pending |
| `ByteDatas.OwnedIsStable` | src/tcpserver/bytedata.h:34-47 | Copied and mapped packets mean the same whatever happens to the caller's memory |
| `ByteDatas.RemainExact` | src/tcpserver/bytedata.cc:92-94 | Data counts as remaining exactly while bytes are pending, except for two or more packets that are all empty |
| `ByteDatas.EmptyPacketsRemain` | src/tcpserver/bytedata.cc:92-94 | Two empty packets count as remaining although nothing is pending |
| `SendQueue.TcpConnection.SendInLoop` | src/tcpserver/tcpconnection.cc:102-116 | What is on the wire and what is queued are together everything sent, in order; new data is offered to the socket at once exactly if nothing is queued, and queued exactly if something of it remains; the socket is watched for writing exactly while something is queued |
| `SendQueue.TcpConnection.HandleWrite` | src/tcpserver/tcpconnection.cc:55-68 | The same for a later partial or failed write; the oldest data leaves the queue exactly if nothing of it remains |
| `SendQueue.TcpConnection.CallerWrites` | src/tcpserver/tcpconnection.cc:102-116 | The queue does not change when the caller reuses its memory |
| `Scheduling.Conservation` | src/co_tcpserver/co_eventloop.cc:99-166 | Over every run an added coroutine is in exactly one of the four lists, once, or has been deleted once after its last turn; nothing else is anywhere |
| `Scheduling.StepKeeps` | src/co_tcpserver/co_eventloop.cc:99-166 | No event loses or duplicates a coroutine, and only the end of a last turn deletes one |
| `Lifecycles.PlaceStep` | src/co_tcpserver/co_eventloop.cc:25-166 | Every event moves every coroutine as the diagram of its life says: added ones become ready, woken ones run, the end of a turn leaves it running, waiting or gone, and ready ones join exactly when a pass begins with nothing running, when the last running one has had its turn, and when one waits; without state only if fewer than five with state were ready |
| `Lifecycles.Lifecycle` | src/co_tcpserver/co_eventloop.cc:25-166 | After any run a coroutine waits if and only if the last thing that happened to it was a turn that ended in waiting; a woken one runs, one whose last turn has ended is gone, and an added one is ready or runs |
| `Lifecycles.OrderStep` | src/co_tcpserver/co_eventloop.cc:99-197 | Nothing overtakes: running ones keep their order, a woken one comes last, ready ones join behind in the order of their adding, those with state first |
| `Lifecycles.FirstComeFirst` | src/co_tcpserver/co_eventloop.cc:25-52 | Over every run the coroutines of a kind join in the order in which they were added, none left out |
| `Scheduling.PassIsRound` | src/co_tcpserver/co_eventloop.cc:106-166 | A pass gives the running coroutines and then the ready ones their turn in order, as long as turns do not end in waiting |
| `Scheduling.PassTurns` | src/co_tcpserver/co_eventloop.cc:106-166 | However the turns of a pass end, the coroutines that have one are the running and then the ready ones up to the first turn that ends in waiting; all have one if and only if no turn before the last ends in waiting |
| `Scheduling.PassPicks` | src/co_tcpserver/co_eventloop.cc:115-120 | A pass picks a coroutine exactly if one is running or ready |
| `Scheduling.HoldCutsPass` | src/co_tcpserver/co_eventloop.cc:106-145 | After any number of turns that go on, a turn that ends in waiting cuts the pass: the coroutines behind have no turn, keep their order, and the next pass begins at the front again |
| `CoEventLoops.CoEventLoop.EndTurn` | src/co_tcpserver/co_eventloop.cc:122-164 | The three endings of a turn on the intrusive lists are the scheduler's steps |
| `CoEventLoops.CoEventLoop.HoldTurn` | src/co_tcpserver/co_eventloop.cc:136-145 | The loop looks for the follower of a coroutine that is already the last of the held ones, so it finds none and the pass ends |
| `CoEventLoops.CoEventLoop.BeginPass` | src/co_tcpserver/co_eventloop.cc:115-120 | The start of a pass on the intrusive lists |
| `CoEventLoops.CoEventLoop.MoveReadyCoroutines` | src/co_tcpserver/co_eventloop.cc:187-197 | Ready coroutines with state are moved, those without only if fewer than five with state were ready |
| `CoEventLoops.CoEventLoop.NotifyCoroutineReady` | src/co_tcpserver/co_eventloop.cc:99-103 | A held coroutine moves to the end of the running ones |
| `CoEventLoops.CoEventLoop.AddCoroutineWithState` | src/co_tcpserver/co_eventloop.cc:40-52 | An added coroutine is appended to the ready list of its kind |
| `CoEventLoops.CoEventLoop.AddTaskWithState` | src/co_tcpserver/co_eventloop.cc:25-38 | A task becomes a coroutine of its own that is added like any other |
| `CoEventLoops.CoEventLoop.SetState` | src/co_tcpserver/coroutine.cc:37-42 | A coroutine that becomes ready is moved; every other change only sets the state |
| `LinkedLists.LinkedList.Push` | src/util/linked_list.h:56-70 | Appends a node |
| `LinkedLists.LinkedList.PushList` | src/util/linked_list.h:25-37 | Appends all nodes of another list and empties it; an empty list can only be appended to an empty one |
| `LinkedLists.LinkedList.Erase` | src/util/linked_list.h:90-104 | Removes a node, at either end or inside, even when the tail is left stale |
| `LinkedLists.LinkedList.Next` | src/util/linked_list.h:106-108 | The node that follows in the sequence |
| `LinkedLists.SuccessorAt` | src/util/linked_list.h:106-108 | The follower of the node at a place is the node at the next place |
| `HashTable.Dict.Expand` | thirdparty/hiredis-vip/include/hiredis-vip/dict.c:88-132 | The table gets a power of two as its size, every key keeps its value and the count stays the same |
| `HashTable.Dict.MoveBucket` | thirdparty/hiredis-vip/include/hiredis-vip/dict.c:105-125 | Moving one bucket, each entry to the head of its new bucket, loses and duplicates nothing |
| `HashTable.Dict.Add` | thirdparty/hiredis-vip/include/hiredis-vip/dict.c:135-154 | Adds a key exactly if it is not there and changes no other key |
| `HashTable.Dict.Replace` | thirdparty/hiredis-vip/include/hiredis-vip/dict.c:160-179 | Sets the value of a key and says whether it is new |
| `HashTable.Dict.Delete` | thirdparty/hiredis-vip/include/hiredis-vip/dict.c:182-211 | Removes a key exactly if it is there and changes no other key |
| `HashTable.Dict.FindEntry` | thirdparty/hiredis-vip/include/hiredis-vip/dict.c:243-256 | Finds what the table holds under a key |
| `HashTable.Dict.KeyIndex` | thirdparty/hiredis-vip/include/hiredis-vip/dict.c:320-339 | The bucket for a new key, -1 exactly if the key is there |
| `HashTable.NextPower` | thirdparty/hiredis-vip/include/hiredis-vip/dict.c:306-315 | The smallest size of the table that is large enough |
| `HashTable.AndMask` | thirdparty/hiredis-vip/include/hiredis-vip/dict.c:326-328 | Masking with a power of two less one is the remainder |
| `HashTable.PairsExact` | thirdparty/hiredis-vip/include/hiredis-vip/dict.c:243-256 | The entries of a table are exactly what can be looked up, as many as are counted |
| `HashTable.DictIterator.Next` | thirdparty/hiredis-vip/include/hiredis-vip/dict.c:268-290 | Returns the first entry not yet visited |
| `HashTable.Visit` | thirdparty/hiredis-vip/include/hiredis-vip/dict.c:268-290 | Every entry present at the start is visited exactly once, in order, even if entries are deleted while they are visited |
| `TimerWheel.ClockAdds` | src/tcpserver/timer.cc:171-185 | A rotation adds the elapsed ticks to the number the digits spell, up to what the top digit loses, and every digit stays between -1 and the wheel size |
| `TimerWheel.ClockCounts` | src/tcpserver/timer.cc:171-185 | Once no digit is -1 the clock counts ticks modulo its range |
| `TimerWheel.FiresOnTime` | src/tcpserver/timer.cc:204-228 | A timer due in r ticks on the lowest layer is taken by the first rotation that completes r ticks and by none before, whatever else is added; of a rotation by a whole wheel or more only what is left after whole laps counts |
| `TimerWheel.TurnDue` | src/tcpserver/timer.cc:207-226 | A rotation takes the timer exactly if what is left of it after whole laps completes the ticks, and otherwise the timer is due that much sooner |
| `TimerWheel.LateExact` | src/tcpserver/timer.cc:204-228 | A timer that is due stays in the wheel exactly when a rotation by a whole wheel or more leaves too little after whole laps |
| `TimerWheel.LateTimer` | src/tcpserver/timer.cc:204-228 | Two slots, a timer due in one tick and a rotation by two: the timer stays |
| `TimerWheel.PlacedDue` | src/tcpserver/timer.cc:144-157 | A timer is placed in the slot that many ticks ahead, before the first tick as well |
| `TimerWheel.SlotExists` | src/tcpserver/timer.cc:148 | There is a slot for a timer if and only if the clock has ticked or the timer is not due at once; otherwise the number of the slot is -1 |
| `TimerWheel.EarlyTimer` | src/tcpserver/timer.cc:148 | A fresh wheel and a timer that is due at once: slot -1 |
| `TimerWheel.PlacedFires` | src/tcpserver/timer.cc:144-228 | Whenever there is a slot the timer is placed where it fires on time |
| `TimerWheel.TimerWheelManager.AdvanceSteps` | src/tcpserver/timer.cc:171-185 | The two loops over the layers compute the new digits |
| `TimerWheel.TimerWheelManager.AddTimer` | src/tcpserver/timer.cc:144-157 | Adds a timer to the lowest layer, before the first tick as well if it is not due at once |
| `TimerWheel.TimerWheelManager.Rotate` | src/tcpserver/timer.cc:164-230 | Any rotation moves the clock and takes exactly the timers of the slots the lowest digit moves over |
| `RouteTrie.SearchExact` | src/cweb/router.h:113-132 | A search finds a node if and only if some way down the tree matches, and then the end of such a way |
| `RouteTrie.InsertThenSearch` | src/cweb/router.h:95-132 | Right after its insertion a pattern that is not empty is found under its own parts |
| `RouteTrie.InsertKeepsRoutes` | src/cweb/router.h:95-111 | What could be routed before an insertion can be routed after it |
| `RouteTrie.TrieInv` | src/cweb/router.h:95-111 | In every trie built by insertions each node has at most one wild child, which is last, and every pattern has as many parts as its node is deep |
| `RouteMatching.LiteralUnderWild` | src/cweb/router.h:35-44 | With "/:id" and then "/list" added, "/x" is routed to "/list" |
| `RouteMatching.RoutesMatch` | src/cweb/router.h:95-132 | In every trie built by insertions: every path that is routed is routed to a pattern that matches it part by part, if and only if the literal parts of every pattern are on nodes with that label |
| `RouteMatching.InsertAligned` | src/cweb/router.h:95-111 | Adding a pattern keeps that so if and only if the walk down the trie enters no wild node with a literal part of the pattern |
| `RouteMatching.RoutedExactly` | src/cweb/router.h:95-132 | In every trie built by insertions a path that a registered pattern matches is routed, unless the empty pattern took a route away; a routed path gets pattern and handler of one entry; with the literal parts on their own labels a path is routed if and only if a registered pattern matches it |
| `RouteMatching.EmptyKeepsRoutes` | src/cweb/router.h:95-111 | Adding the empty pattern takes no route away if and only if its node holds no pattern, or is not wild and has a wild sibling with a pattern |
| `RouteMatching.EmptyTakesRoute` | src/cweb/router.h:95-132 | With "/" and then the empty pattern added, the path "/" is not routed |
| `RouteMatching.SplitClean` | src/cweb/router.h:135-151 | The parts of a split are free of delimiters if and only if, behind the one it may begin with, no delimiter follows another |
| `RouteMatching.DoubledSlash` | src/cweb/router.h:135-151 | The input "a//b" is split into "a" and "/b" |
| `RouteMatching.JoinSplit` | src/cweb/router.h:135-151 | Every list of parts that a split can have is the split of a path |
| `RouteTrie.SplitJoin` | src/cweb/router.h:135-151 | Joining the parts of a split restores the input up to one leading delimiter |
| `RouteTrie.SplitParts` | src/cweb/router.h:135-151 | The splitting loop, which never takes the byte after a delimiter for another one |
| `Routers.Router.AddRouter` | src/cweb/router.cc:8-17 | Inserts a pattern into the trie of a request method, which is made when it is needed |
| `Routers.Router.FindRoute` | src/cweb/router.cc:29-50 | Finds the route of a path for a request method: every parameter is bound to a part that exists, the handler is that of a registered pattern, the pattern matches the path whenever the patterns are on their own labels, and a path that a registered pattern matches is found unless the empty pattern took its route away |
| `Routers.BindExact` | src/cweb/router.cc:40-44 | A parameter is bound to the part at the place of the last pattern part of its name |

## Left out

- LockfreeQueue.FifoOverRuns: assumes sequential consistency and less than one lap between a load and its swap; C++ memory orders are not modelled. A queue keeps one push mode and one pop mode for its whole life, and in the single modes one thread pushes or pops.
- HttpParser.PushParser.Execute: takes fewer than 2^31 bytes per call, which is what one read of the socket can return; the fields and the callbacks left by an error are not described, and of a header that is too long only that it has failed by the byte returned: the bulk loops count their bytes at their end, so another error may be reported.
- HttpStream.AssertionsHold: the assertion about marks at the end of a buffer is checked inside the model's `FlushMarks`.
- HttpFraming.SizeExact: digits beyond the header limit are the header overflow error, not a size.
- HttpRequest.HeaderRead: Connection, Transfer-Encoding and Content-Length in one line; for values of theirs that go on in the next line `HttpRequest.FoldRead` says what the matcher becomes.
- HttpMessages.HeadRead: the head fits the limit of 80 KiB; what the matchers of the last header leave behind (two fields that every use sets first) is not stated.
- JsonLayout.TreeRead: the one layout that is not also read back in general is a member followed by a comment and another token than a comma; `JsonAccepted.CommentForComma` says how it is read.
- HTTP responses, lenient mode, pausing callbacks and callbacks that skip a body, the hand-over after an upgrade, and the glue that turns callbacks into requests.
- JsonRoundTrip.RoundTrip: leaves out doubles and -2^63, whose negation overflows in the reader; names are shorter than 2^30 bytes, which is where the reader throws.
- JsonReader.DecodeNumber: a token that is not an integer is kept as its text; the conversion to a double, which can also fail, is not modelled.
- JsonReader.Reader.ReadDocument: comments are skipped but not collected; error messages, the search for further errors after the first, and the settings that request bodies do not use are not modelled.
- JsonWriter.FastWriter.WriteValue: prints a double as its token; YAML compatibility, dropped nulls and the styled writers are left out.
- MultipartBody.RoundTrip: names are tokens, values are not empty, have no CR and do not begin with a blank, the boundary is ASCII, and no delimiter is complete inside the data; the body arrives in one call, as it does in the source; no name is left over from an earlier request.
- MultipartBody.HttpRequestMultipartBody.HandleHeaderValue: the `name` and `filename` of a Content-Disposition value are not extracted. A value without a part is ignored; the source would look for the last of no parts, but no parser call makes one.
- MultipartStep.Parser.constructor: boundaries of 70 bytes or more, which fill the source's buffer without an end, are left out.
- MultipartTrip.SendMultipart: the boundary is a parameter, not generated; mapped files are data like any other.
- WebSocketSession.WebSocket.HandleMessage: payload and buffer together stay below 2^31 bytes, the range of the source's indices.
- WebSocketMessages.Reassembly: data messages only; control frames between messages are in `WebSocketTraffic.Traffic` and a ping inside a message in `WebSocketTraffic.PingInside`. The coroutine receive path and the handshake are left out. The message and close callbacks are set.
- WebSocketTraffic.Traffic: nothing is said about bytes behind a frame that closes the connection.
- ByteDatas.ByteData.Writev: sizes are at most 2^31 - 1 in total, because the source's offset is an int; at least one packet is present. Packets and their copies are values; mapped files do not change.
- SendQueue.TcpConnection.SendInLoop: the connection stays open.
- CoEventLoops.CoEventLoop.NotifyCoroutineReady: the coroutine is held; the source would unlink any other from a list it is not in.
- CoEventLoops.CoEventLoop.EndTurn: a context switch is the end of a turn in some state; pollers, wake-ups and hooks (including the `sleep` that pushes a coroutine which is still held) are left out. `LinkedList::Pop`, which makes the list circular, is not part of this model.
- HashTable.Dict.Expand: a size above 2^30 that is no power of two would be rounded up beyond 2^31.
- HashTable.Dict.Delete: chains are values, so unlinking rebuilds the chain before the entry; sizes stay below 2^31; destructors and duplication of keys and values are left out.
- HashTable.DictIterator.Next: only the entry returned last may be deleted during an iteration.
- TimerWheel.TimerWheelManager.Rotate: timers run once and are not cancelled; layers above the lowest, whose timers are placed against the clock before the rotation, are left out of the firing claim.
- TimerWheel.TimerWheelManager.AddTimer: only intervals of the lowest layer, and not the one case without a slot, where the source indexes a vector with -1.
- Routers.Router.AddRouter: nodes are values, because a node has one parent. Handlers are numbers.
- Sockets, pollers, the logger, database clients, memory pool, configuration and the wiring of contexts.

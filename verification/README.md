# libtnet, modelled and proved in Dafny

libtnet is an event-driven network library. It holds several byte-level machines:
an incremental reader and two writers for the Redis protocol, a push parser for
HTTP/1.x with its URL parser, streaming hashes and HMAC, a WebSocket connection,
a cross-thread callback queue, a timing wheel, a connection with a send buffer,
and the codecs these use. This project models them and proves what they promise:
that input may be cut anywhere, that what is written is read back, that machines
with buffers and marks agree with short definitions, and what every run keeps.
Where a promise is broken, the exact condition under which it holds is proved.

Code that works by changing things in place is a class or a method with loops
over the same fields and buffers; code made of expressions is functions. Such a
method is proved against a specification, and the specification against its
meaning.

| files | subject |
|---|---|
| `Common.dfy` | integer limits and lists of pieces |
| `RedisGrammar.dfy`, `RedisWire.dfy`, `RedisMachine.dfy`, `RedisReader.dfy`, `RedisConnection.dfy` | the grammar of replies, replies as a peer may spell them, what the explicit task stack means, the reader that builds trees in place, the connection that drains it |
| `RedisWriter.dfy`, `RedisFormat.dfy` | commands from argument lists and from formats |
| `HttpTypes.dfy`, `HttpStep.dfy`, `HttpMarks.dfy` | one byte of the HTTP parser, its invariant and its marks |
| `HttpRun.dfy`, `HttpParser.dfy`, `HttpSplit.dfy` | runs byte by byte, the parser on whole buffers, and buffers cut anywhere |
| `HttpAssembler.dfy` | headers put together from pieces; a connection served |
| `HttpFraming.dfy`, `HttpLength.dfy`, `HttpWords.dfy`, `HttpHeaders.dfy` | chunked and counted bodies, methods and header names, header lines |
| `HttpMessage.dfy` | headers and what comes behind them: a body, a trailer, the rest of the connection, another protocol |
| `HttpLine.dfy`, `HttpRequest.dfy`, `HttpResponse.dfy` | start lines |
| `HttpConversation.dfy` | whole requests and responses, one after another, on a connection |
| `HttpRefusals.dfy`, `HttpLenient.dfy` | what is refused, byte by byte and number by number; what passes besides the proper form |
| `HttpUrl.dfy`, `HttpUrlGrammar.dfy`, `HttpUrlText.dfy` | a URL cut into its fields; which texts are URLs, told without the state machines |
| `Sha1.dfy`, `Hashing.dfy`, `Sha1Example.dfy` | the compression function of SHA-1; streaming digests and HMAC; the constants, the byte orders and the first example of FIPS 180-1 |
| `WebSocketFrame.dfy`, `WebSocket.dfy`, `WebSocketExample.dfy` | frames as bytes; the connection; masks and headers bit by bit, and the examples of RFC 6455 |
| `CallbackQueue.dfy`, `TimingWheel.dfy`, `Connection.dfy` | the event loop |
| `Base64.dfy`, `Base64Alphabet.dfy`, `Sds.dfy`, `SdsQuote.dfy` | codecs and dynamic strings |

Text bytes are `char`, bytes of hashes `bv8`, other bytes numbers below 256.
`dafny verify dfyconfig.toml` checks everything.

A predicate written `P(x) { IsP(x) == true }` is `IsP`; the comparison keeps the
verifier from proving its parts one by one. Definitions that the code and its
specification share, such as character tables, masks, constants and byte orders,
are pinned by members of their own that do not use them, or by the examples of the
standards.

## Model

| member | source | states |
|---|---|---|
| RedisGrammar.FirstCrlfAppend | src/redis/hiredis.c:235-260 | a line end once found stays where it is, whatever bytes come behind it |
| RedisGrammar.NextTokenAppend | src/redis/hiredis.c:330-531 | an item that is decided (read, refused or out of range) is decided the same when more input follows |
| RedisWire.ParseEncode | src/redis/hiredis.c:330-531 | the grammar reads back any reply tree that fits, however it is spelled: numerals with signs and leading zeros, nil as a bulk or as an array of any negative count, nesting within the stack; whatever follows on the wire |
| RedisWire.TooDeepRefused | src/redis/hiredis.c:427-431 | a tree nested deeper than the task stack is refused with a protocol error: the nesting bound is exact |
| RedisWire.StreamRoundTrip | src/redis/hiredis.c:484-531 | a list of replies written one after another is read as that list, with nothing left over |
| RedisWire.StreamBreaks | src/redis/hiredis.c:484-531 | after such replies, a byte that begins none, a depth beyond the stack or a count out of range ends the stream with that error, and the replies before it are read |
| RedisWire.ReadSpelled | src/redis/hiredis.c:263-288 | a numeral with a sign, leading zeros or neither is read as its value, and one that is broken off by another character as -1 |
| RedisMachine.DrainFirst | src/redis/redisconnection.cpp:30-59 | draining the input is taking one reply after the other until there is none |
| RedisMachine.DrainAppend | src/redis/hiredis.c:564-647 | draining a text, feeding more and draining again gives the replies and the stack of draining everything at once |
| RedisMachine.FinishPlug | src/redis/hiredis.c:305-328 | closing every array that an item completes, on the explicit stack, is what the recursive grammar does with that item |
| RedisMachine.DrainIsParse | src/redis/hiredis.c:305-531 | from a fresh reader, the explicit stack yields exactly the replies and the ending of the recursive grammar, for every input |
| RedisReader.SeekNewline | src/redis/hiredis.c:235-260 | the two nested scanning loops find the first CRLF, or nothing |
| RedisReader.ReadNumber | src/redis/hiredis.c:263-288 | the loop over the digits yields the number the line denotes |
| RedisReader.BulkReply | src/redis/hiredis.c:365-418 | a bulk item is taken whole or not at all; its node spells it and the bytes counted are those it takes |
| RedisReader.ArrayReply | src/redis/hiredis.c:420-482 | an array header gives nil, an empty node or a node with that many empty slots |
| RedisReader.LineReply | src/redis/hiredis.c:330-363 | a line item gives a node that spells it |
| RedisReader.Reader.MoveToNextTask | src/redis/hiredis.c:305-328 | the stack is left for the next open slot; every array completed on the way spells its elements, and when the last one closes the root reply does |
| RedisReader.Reader.OpenArray | src/redis/hiredis.c:449-477 | a new node goes into the slot of its parent, a task for its first slot goes on the stack, and no other node is disturbed |
| RedisReader.Reader.ProcessItem | src/redis/hiredis.c:484-531 | one item in place does what the grammar says of it: wait for more, fail, open an array or finish nodes; the invariant of the stack is kept |
| RedisReader.Reader.Feed | src/redis/hiredis.c:564-594 | the unread input grows by the data fed, unless the reader has failed |
| RedisReader.Reader.GetReply | src/redis/hiredis.c:596-647 | the tree returned is the first reply of the unread input, built in place and complete; a partial one waits; an error stays |
| RedisReader.Reader.Discard | src/redis/hiredis.c:631-637 | dropping consumed bytes changes nothing that is unread, and their room becomes available |
| RedisConnection.Connection.HandleRead | src/redis/redisconnection.cpp:30-59 | after any pieces, what was delivered, and whether there is an error, is what the grammar makes of all the input so far |
| RedisConnection.PrefixAwaits | src/redis/redisconnection.cpp:30-59 | no prefix of well-formed input is an error |
| RedisConnection.Session | src/redis/redisconnection.cpp:30-59 | replies written by a peer, in any of their spellings, and cut into feeds at any positions are delivered as exactly those trees, in order |
| RedisConnection.BrokenSession | src/redis/redisconnection.cpp:30-59 | when such replies are followed by one that is broken, the replies are delivered and the connection ends with the error, wherever the input was cut |
| RedisWriter.CommandRoundTrip | src/redis/hiredis.c:927-960 | the reader makes of a written command the array of its arguments, whatever follows |
| RedisWriter.IntLen | src/redis/hiredis.c:650-661 | the length computed for a number is that of its decimal form |
| RedisWriter.BulkLen | src/redis/hiredis.c:664-666 | the length computed for an argument is that of its encoding |
| RedisWriter.FormatCommandArgv | src/redis/hiredis.c:927-960 | the bytes written are the encoding of the command, they fill the size computed beforehand, and a NUL follows |
| RedisWriter.BuildRequest | src/redis/redisconnection.cpp:65-83 | appending gives the same bytes as the precomputed buffer: the encoding of the command |
| RedisFormat.SpacesInDataDoNotSplit | src/redis/hiredis.c:668-855 | how many arguments a command has is decided by the format alone, never by the data substituted |
| RedisFormat.WordsAreArguments | src/redis/hiredis.c:668-855 | a format of words separated by spaces, with characters, "%%", "%s" and "%b" in them, denotes these words with the data in the place of the conversions; a C string ends at its NUL |
| RedisFormat.CollectArguments | src/redis/hiredis.c:668-855 | the single pass finds the arguments that the format denotes: it is split at its own spaces, then substituted |
| RedisFormat.FormatCommand | src/redis/hiredis.c:668-899 | the bytes are the encoding of the command that the format denotes |
| HttpStep.AdvanceSound | src/http/http_parser.c:548-1807 | every byte keeps the invariant from which every assertion of the code follows, or ends in an error |
| HttpMarks.AdvanceTidy | src/http/http_parser.c:587-1792 | every byte sets and clears the data marks so that they agree with the states it leaves and enters |
| HttpRun.RunAppend | src/http/http_parser.c:607-1787 | a run over two texts is the run over the first and, if that is not stopped, the run over the second |
| HttpRun.RunKeepsGood | src/http/http_parser.c:548-1807 | for every input the invariant holds all along, and an errno is set exactly when something other than an upgrade stops the parser |
| HttpRun.RunBodyEof | src/http/http_parser.c:1648-1652 | a body that lasts until the end of input is all data |
| HttpParser.Executor.Execute | src/http/http_parser.c:548-1807 | on a whole buffer, with marks and bodies taken in one stretch, the parser ends where single bytes lead, consumes as many, and makes the same callbacks but for how data is cut |
| HttpParser.Executor.Eof | src/http/http_parser.c:565-584 | what the end of input does in each state |
| HttpParser.Executor.BodyStretch | src/http/http_parser.c:1612-1652 | as much of a body as the buffer holds is taken at once, as its bytes one by one would be |
| HttpSplit.NextCall | src/http/http_parser.c:548-1807 | a call after another one is one call on all the bytes |
| HttpSplit.SplitInvariance | src/http/http_parser.c:548-1807 | two calls or one: the same parser, the same count of bytes, the same callbacks after merging; after an error, up to the data that is not handed out |
| HttpSplit.UpgradeStops | src/http/http_parser.c:1575-1580 | after an upgrade one call on everything stops where the first of two did, with the same callbacks |
| HttpSplit.LeaveUpgrades | src/http/http_parser.c:1523-1580 | the parser leaves for another protocol only with its upgrade flag set, and does not set it without leaving |
| HttpAssembler.HandleNorm | src/http/httpparser.cpp:116-157 | the headers put together do not depend on how names and values were cut into callbacks |
| HttpAssembler.MessageHeaders | src/http/httpparser.cpp:116-157 | the callbacks of a message report exactly its headers, in their order |
| HttpAssembler.Assembler.OnParser | src/http/httpparser.cpp:92-157 | a callback changes the field, the value and the reported headers as the specification of the assembler says |
| HttpAssembler.Assembler.Execute | src/http/httpparser.cpp:159-174 | a call leaves the parser as the run says; 400 is the answer only when an error has been met |
| HttpAssembler.Assembler.End | src/http/httpparser.cpp:159-174 | a call with no bytes does what the end of input does, and answers 400 where it is an error |
| HttpAssembler.Assembler.Serve | src/http/httpparser.cpp:159-174 | over any buffers, callbacks and headers are those of the bytes fed one at a time; without an error and an upgrade everything is fed |
| HttpFraming.BodyBytesNorm | src/http/http_parser.c:1612-1652 | the body bytes handed out do not depend on how they are cut into callbacks |
| HttpFraming.ChunkedRun | src/http/http_parser.c:1659-1770 | a chunked body, with sizes in hexadecimal and any parameters: every byte of every chunk is handed out, and the size line of the last chunk, nothing before it, leads to the trailer |
| HttpLength.LengthRun | src/http/http_parser.c:1421-1443 | with Content-Length N as the last header the message is over after exactly N more bytes, all handed out |
| HttpLength.LengthBody | src/http/http_parser.c:1570-1646 | whatever calls bring it in, the body callbacks concatenate to the N bytes |
| HttpWords.AcceptedIsMethod | src/http/http_parser.c:881-961 | the switches in the middle of a word keep to what has been read: an accepted word is a method, and that one is reported |
| HttpWords.MethodIsAccepted | src/http/http_parser.c:881-961 | every one of the 26 methods is accepted |
| HttpWords.MethodsExact | src/http/http_parser.c:841-961 | a word before a space is accepted if and only if it is one of the 26 methods, which is the one reported |
| HttpWords.MethodsExactEither | src/http/http_parser.c:632-666 | the same where a response may begin, with the short cut from "H" to HEAD; a response is never taken for a request |
| HttpWords.KnownStep | src/http/http_parser.c:1201-1306 | the matching of header names follows the prefixes of the names that matter |
| HttpHeaders.NamesExact | src/http/http_parser.c:1152-1306 | a header is taken for one that matters if and only if its name equals that header's name, ignoring case |
| HttpHeaders.ValueStep | src/http/http_parser.c:1396-1480 | the matching of values follows the words chunked, keep-alive and close, in any case, with spaces behind them |
| HttpHeaders.LineRun | src/http/http_parser.c:1152-1521 | a header line reports its name and its value, and sets the flags and the length that it names and nothing else |
| HttpHeaders.BlockRun | src/http/http_parser.c:1152-1521 | a block of header lines reports the names and values as written, and their effects are those of its lines in order |
| HttpMessage.EffectsExact | src/http/http_parser.c:1330-1511 | every byte of a header block counts against the limit, and its effect on the framing depends on no more than flags and length |
| HttpMessage.NeedsEofExact | src/http/http_parser.c:1811-1832 | the end of a message is that of the input exactly if it is a response of a status with a body, without a declared length, not in chunks, and the callback has not said otherwise |
| HttpMessage.MessageRun | src/http/http_parser.c:1152-1770 | any header lines in any order, the blank line, and the body that they announce, by length, in chunks with a trailer, or none: the message completes with the last byte, with these headers and this body |
| HttpMessage.MessageParsed | src/http/http_parser.c:548-1807 | whatever calls bring such a message in: all of it is consumed, the body callbacks concatenate to the body, and the headers reported are the ones written, but for the trailer |
| HttpMessage.TrailerExact | src/http/httpparser.cpp:127-157 | headers and trailer are reported as they are written if and only if there is no trailer or it only repeats the last header; else the last header comes twice and the last line of the trailer never |
| HttpMessage.ClosingRun | src/http/http_parser.c:1582-1652 | a response without a declared length, of a status that has a body: everything behind the headers is body |
| HttpMessage.TunnelRun | src/http/http_parser.c:1523-1580 | a message that asks for another protocol is complete with its headers, and no byte behind them is read, whatever it is |
| HttpLine.VersionRun | src/http/http_parser.c:690-760 | of requests and responses: "HTTP/" behind its first letter and two numbers below 1000 are read as these numbers, without a callback |
| HttpRequest.UrlRun | src/http/http_parser.c:963-1031 | a request target that the URL machine accepts, for CONNECT an authority, is reported as it is written |
| HttpRequest.TargetExact | src/http/http_parser.c:400-545 | a request target is accepted if and only if it is put together from a schema, an authority, a path, a query and a fragment of their characters, with something behind the schema |
| HttpRequest.PathTarget | src/http/http_parser.c:400-545 | every "/path?query#fragment" is a target, with any of the last two left out |
| HttpRequest.TargetRefused | src/http/http_parser.c:963-1031 | whatever else stands between method and space is answered with the error of an invalid URL, whatever follows |
| HttpRequest.StartRun | src/http/http_parser.c:841-1150 | a request line, of any method, begins one message, with its method, its target and its version |
| HttpResponse.StartRun | src/http/http_parser.c:668-839 | a status line begins one message, with its version and its code, whether there is a phrase or not |
| HttpConversation.MessageTaken | src/http/http_parser.c:548-1807 | a whole request or response is taken with exactly its bytes, its callbacks are its start line, headers, body and trailer; another message may follow exactly if the lines of headers and trailer, the version and the framing allow it |
| HttpConversation.StateExact | src/http/http_parser.c:1834-1849 | behind a written message the parser is where a message begins if and only if the connection persists: from 1.1 on, no line says close, else one says keep-alive; and the end of the message is known without the end of input |
| HttpConversation.NextExact | src/http/http_parser.c:618-630 | the first byte behind it that is no line end is refused with the error of a closed connection if and only if it does not persist |
| HttpConversation.TurnsTaken | src/http/http_parser.c:548-1807 | messages one after another are taken one after another, as long as each, by its lines, keeps the connection open |
| HttpConversation.ServeAll | src/http/httpparser.cpp:80-174 | a connection on which such requests, or responses, come in, in buffers cut anywhere: no error is answered, and headers and bodies reported are theirs |
| HttpConversation.ServeUnending | src/http/http_parser.c:565-584 | after responses one whose body lasts until the connection ends: headers and bodies reported are theirs, and the end of input completes it |
| HttpConversation.ServeLeaving | src/http/httpparser.cpp:159-174 | after messages one that asks for another protocol: the upgrade is seen, and nothing behind it is taken for HTTP, however the bytes were cut |
| HttpConversation.TrailerLost | src/http/httpparser.cpp:127-157 | a request with one header and a trailer of one line: the header is reported twice, the trailer not at all |
| HttpRefusals.TokenExact | src/http/http_parser.c:121-154 | the characters of a header name, and what they are folded to, are the entries of the table |
| HttpRefusals.UnhexExact | src/http/http_parser.c:157-166 | the digits of a chunk size count from 0 to 15 in either case; other ASCII is none, and beyond it the table has zeros |
| HttpRefusals.LowerExact | src/http/http_parser.c:335 | capitals become small letters, and digits and hyphens stay as they are |
| HttpRefusals.RefusedExact | src/http/http_parser.c:548-1807 | outside methods and targets, a byte is refused, and with which error, exactly if it is not one of those awaited in its state, makes a number of the start line exceed 999 or a length wrap, or is beyond the limit of the headers |
| HttpRefusals.ElsewhereRefuses | src/http/http_parser.c:841-1031 | where a method may begin, a byte is refused exactly if no method begins with it; the only errors within methods and targets are those of a method and of a URL |
| HttpRefusals.LengthExact | src/http/http_parser.c:1421-1443 | a Content-Length is accepted at its value if and only if that is below 2^64 - 1 |
| HttpRefusals.LengthMisread | src/http/http_parser.c:1421-1443 | 50000000000000000000 is accepted as 13106511852580896768 |
| HttpRefusals.SizeExact | src/http/http_parser.c:1674-1707 | the size of a chunk is accepted at its value if and only if that is below 2^64 - 1 |
| HttpRefusals.StoppedBy | src/http/http_parser.c:37-58 | a notification that fails or pauses the parser is the last one made, and the error says which it was |
| HttpRefusals.NoBodyEnds | src/http/http_parser.c:1540-1600 | a parser told that there is no body has its message over with the headers, whatever length they give |
| HttpLenient.BareLf | src/http/http_parser.c:1396-1411 | behind a header value LF does what CRLF does, but that one byte less counts against the limit |
| HttpLenient.EmptyLf | src/http/http_parser.c:1346-1350 | behind the colon LF ends an empty value, which cannot be folded then |
| HttpLenient.BlankLf | src/http/http_parser.c:1152-1168 | where a header line may begin, LF does what the LF of a blank line does |
| HttpLenient.MinorLf | src/http/http_parser.c:1107-1122 | a request line may end in LF |
| HttpLenient.ColonlessLine | src/http/http_parser.c:1308-1328 | a header line without a colon is reported as a name and no value |
| HttpLenient.FoldRun | src/http/http_parser.c:1513-1521 | a line that begins with a blank goes on with the value of the header before it |
| HttpLenient.FoldedValue | src/http/httpparser.cpp:135-148 | the value reported of such a header is its pieces put together, without the blanks between them |
| HttpLenient.LineEndsRun | src/http/http_parser.c:841-843 | line ends before a request, or behind the last message of a connection, are passed over |
| HttpLenient.BeforeResponse | src/http/http_parser.c:668-688 | before a response each of them is reported as the beginning of a message |
| HttpLenient.SpacesRun | src/http/http_parser.c:1033-1048 | any number of spaces may stand before the protocol of a request and the code of a response |
| HttpLenient.TargetSpaces | src/http/http_parser.c:963-972 | and before a target |
| HttpLenient.ShortLine | src/http/http_parser.c:1009-1019 | a target with the end of the line behind it makes a request of version 0.9 |
| HttpLenient.PhraseLf | src/http/http_parser.c:796-834 | a status line that ends in LF alone is not reported as complete |
| HttpUrl.FieldsInOrder | src/http/http_parser.c:2017-2101 | the fields of an accepted URL are disjoint and in the order schema, userinfo, host, port, path, query, fragment |
| HttpUrl.FieldsGood | src/http/http_parser.c:2017-2101 | they lie within the URL, are not empty and hold only characters of their class |
| HttpUrl.SameIsLatest | src/http/http_parser.c:2059-2074 | a field that ended is never taken up again, so that going on with the field written last is right |
| HttpUrl.PortExact | src/http/http_parser.c:2090-2099 | what `strtoul` reads is the value of the digits in a range if and only if no digit follows them, or they and the digits that follow are zeros |
| HttpUrl.PortValue | src/http/http_parser.c:2090-2099 | the port of an accepted URL, of any value, is the value of its range if and only if the URL does not end in it, or no digit is behind it in memory, or only zeros are and its value is zero |
| HttpUrl.PortPastTheEnd | src/http/http_parser.c:2090-2099 | "h:80" with "80" behind it: accepted, with "80" as its port field and 8080 as its port |
| HttpUrl.Url.Locate | src/http/http_parser.c:2017-2075 | the loop refuses what the URL machine refuses; otherwise the fields are the ones that machine passes through, with the authority in one piece |
| HttpUrl.Url.ParseHost | src/http/http_parser.c:1945-2015 | the authority is refused as its machine says; otherwise userinfo, host and port are where its delimiters put them |
| HttpUrl.Url.Parse | src/http/http_parser.c:2017-2101 | exactly which URLs are accepted, and the fields and the port of those that are |
| HttpUrlGrammar.TableExact | src/http/http_parser.c:176-243 | the characters of paths, queries and fragments are the entries of the table |
| HttpUrlGrammar.ComposedExact | src/http/http_parser.c:400-545 | the URL machine is past the schema and alive exactly behind the texts that are put together from parts of their characters, in any length |
| HttpUrlGrammar.PartsScanned | src/http/http_parser.c:2017-2075 | on such a text the loop ends in the state its last part calls for, with these parts as its fields |
| HttpUrlText.AuthorityExact | src/http/http_parser.c:1879-2015 | the authority machine goes through to its end exactly on a host or a literal in brackets, with a userinfo before it or not, and a port behind it or not |
| HttpUrlText.UrlExact | src/http/http_parser.c:2017-2101 | a URL divides into fields if and only if it is put together from an optional schema, userinfo, host, port, path, query and fragment of their characters |
| HttpUrlText.FieldsExact | src/http/http_parser.c:2017-2101 | whatever fields are found in a URL are exactly the ranges of the parts it was written with |
| HttpUrlText.ParseWritten | src/http/http_parser.c:2017-2101 | of a URL written in parts: its fields are these parts, and it is refused only if it is for CONNECT and has more or less than a host and a port, or if its port is beyond 65535 |
| Sha1.ShiftsAreRotations | src/polarssl/sha1.c:67 | the macro S is a rotation |
| Sha1.FormsAgree | src/polarssl/sha1.c:87-168 | the Boolean forms of the macros F are those of section 5 of FIPS 180-1 |
| Sha1.R | src/polarssl/sha1.c:69-74 | sixteen words overwritten in a circle yield the eighty words of the schedule, each in its round |
| Sha1.Five | src/polarssl/sha1.c:76-94 | five rounds with renamed registers are five rounds of section 7 of FIPS 180-1, with the names back in place |
| Sha1.Process | src/polarssl/sha1.c:47-203 | the state in place becomes the chaining value of section 7 of FIPS 180-1, for every block and every state |
| Sha1Example.ConstantsAreRoots | src/polarssl/sha1.c:87-168 | the constants of the four rounds are the square roots of 2, 3, 5 and 10, in units of 2^-30 |
| Sha1Example.AbcDigest | src/polarssl/sha1.c:47-275 | the digest of "abc" is the one of appendix A of FIPS 180-1 |
| Sha1Example.AbcHashed | src/polarssl/sha1.c:280-288 | the streaming code computes it |
| Sha1Example.InitialBytes | src/polarssl/md5.c:36-44 | the bytes of the initial words of both algorithms, the least significant first |
| Sha1Example.LengthOrders | src/polarssl/md5.c:223-228 | the length in bits is written with its most significant byte first for SHA-1, last for MD5 |
| Sha1Example.BytesReversed | src/polarssl/md5.c:236-239 | so are the bytes of a word: MD5 has them in the other order |
| Hashing.FieldExact | src/polarssl/sha1.c:252-262 | the length written in the padding tells two lengths apart if and only if they differ below 2^61 |
| Hashing.DigestModulo | src/polarssl/sha1.c:252-275 | lengths that agree in 61 bits give the same digest |
| Hashing.UpdatesExact | src/polarssl/sha1.c:205-262 | for any updates: the length written in the padding is the message's if and only if as many bytes were counted as there are, modulo 2^61; then the digest is the message's |
| Hashing.ShortExact | src/polarssl/sha1.c:215-219 | for messages below 2^61 bytes: if and only if no update has 2^32 bytes |
| Hashing.OneUpdateExact | src/polarssl/sha1.c:215-219 | for a single update: if and only if its length is below 2^32, modulo 2^61 |
| Hashing.FourGigabytes | src/polarssl/sha1.c:215-219 | an update of 2^32 bytes is padded with a length of zero, where the high half should be 8 |
| Hashing.Context.Update | src/polarssl/sha1.c:205-240 | the state, the block buffer and the two counters are those of the longer message; a length counts modulo 2^32 |
| Hashing.Context.Finish | src/polarssl/sha1.c:252-275 | the output is the fold of the compression function over the message padded with the length that was counted |
| Hashing.Context.AnyParts | src/polarssl/sha1.c:295-318 | any updates give the digest of the whole message with the length that was counted |
| Hashing.Context.InParts | src/polarssl/md5.c:171-240 | any split of a message into updates below 2^32 bytes gives the digest of the whole |
| Hashing.Context.HmacStarts | src/polarssl/sha1.c:325-350 | the two pads are those of section 2 of RFC 2104, for keys of any length |
| Hashing.Context.HmacFinish | src/polarssl/sha1.c:359-372 | the output is the outer hash over the inner digest |
| Hashing.Context.HmacInParts | src/polarssl/sha1.c:325-392 | HMAC of section 2 of RFC 2104, for any key and any split of the text |
| WebSocketFrame.XorTwice | src/http/wsconnection.cpp:254-269 | masking a byte twice gives it back |
| WebSocketExample.XorExact | src/http/wsconnection.cpp:254-269 | a bit of the masked byte is set if and only if the bits of data and key differ |
| WebSocketFrame.MaskTwice | src/http/wsconnection.cpp:254-269 | masking undoes itself |
| WebSocketFrame.ReadPrefix | src/http/wsconnection.cpp:81-130 | more bytes do not change what is decided of a frame |
| WebSocketFrame.ReadEncoded | src/http/wsconnection.cpp:81-269 | a frame with up to 65535 bytes that is written is read with its masking undone |
| WebSocketExample.LongHeaders | src/http/wsconnection.cpp:382-433 | the longer forms of a header have the length in two or in eight bytes, the most significant first |
| WebSocketFrame.ReadExact | src/http/wsconnection.cpp:162-269 | any frame and any limit: it is read with its masking undone, or refused, exactly if it is a long control frame or the bytes of its length in the wrong order exceed the limit |
| WebSocketFrame.EightRefused | src/http/wsconnection.cpp:218-240 | the eight-byte form is refused for every length from 1 to 2^40 - 1 with limits below 2^24 |
| WebSocketFrame.SentIsRead | src/http/wsconnection.cpp:382-433 | a data message of any length that is sent is read back if and only if it is short or the bytes of its length in the wrong order are within the limit |
| WebSocketFrame.SentWithLimit | src/http/wsconnection.cpp:26 | with a limit from 65535 to 2^24 - 1, as it is set, and lengths below 2^40: if and only if it has at most 65535 bytes |
| WebSocket.RunScript | src/http/wsconnection.cpp:271-320 | a fragmented message that the standard allows is taken if and only if its first fragment has data or is all of it |
| WebSocket.Reassembly | src/http/wsconnection.cpp:271-320 | of any messages in any fragments, with control frames between, everything is taken if and only if none begins with an empty fragment and goes on; then messages come out whole and control frames in their turn |
| WebSocket.EmptyFirstFragment | src/http/wsconnection.cpp:280-293 | the same condition for one message |
| WebSocket.EmptyMaskedEndsEarly | src/http/wsconnection.cpp:148-160 | an empty frame with a masking key is taken for complete four bytes before its end |
| WebSocket.WsConnection.TryRead | src/http/wsconnection.cpp:187-197 | bytes are gathered up to the number wanted, and no more are taken |
| WebSocket.WsConnection.Unmask | src/http/wsconnection.cpp:254-269 | the loop in place unmasks the data |
| WebSocket.WsConnection.HandleFrameData | src/http/wsconnection.cpp:271-353 | a complete frame is refused, or leads to the message under construction and the event that fragmentation calls for |
| WebSocket.WsConnection.OnRead | src/http/wsconnection.cpp:81-130 | the answer to a call is that to all bytes of the frame so far: wait, fail, or deliver, wherever they were cut, with the byte misread after reserved bits and behind a one-byte buffer |
| WebSocket.ReadAsItIs | src/http/wsconnection.cpp:85-97 | a call that begins a frame is taken for the bytes it holds if and only if it holds two at least and the first has no reserved bit |
| WebSocket.ReservedRefused | src/http/wsconnection.cpp:132-146 | a call whose first byte has reserved bits is refused if and only if that byte is too long a length for the control frame before it, or what comes for a length is beyond the limit |
| WebSocket.ReservedAlone | src/http/wsconnection.cpp:162-185 | such a byte on its own is refused in the first of these cases only; else the connection waits for more |
| WebSocket.SingleByte | src/http/wsconnection.cpp:85-97 | what comes of a call of one byte, by the byte behind the buffer: a wait if and only if that is a length such a frame may have, an empty frame if and only if it is zero |
| WebSocket.ReservedPasses | src/http/wsconnection.cpp:132-146 | a new connection that gets the byte 0xC1 reports nothing |
| WebSocket.MessageOutOfNothing | src/http/wsconnection.cpp:85-97 | a new connection that gets the byte 0x81, with a zero behind it in memory, reports an empty message |
| WebSocket.WsConnection.SendFrame | src/http/wsconnection.cpp:382-433 | the bytes handed over are the encoding of the frame |
| WebSocket.WsConnection.ReceiveFrame | src/http/wsconnection.cpp:81-320 | a frame that comes in over any calls, the first with both header bytes, has the effect of that frame |
| WebSocket.WsConnection.ReceiveAll | src/http/wsconnection.cpp:81-353 | a whole conversation, every frame in any number of calls: what comes out is what was sent, or the connection is given up exactly when a message begins with an empty fragment and goes on |
| WebSocketExample.FrameRefused | src/http/wsconnection.cpp:271-353 | a complete frame is refused if and only if it is a control frame in fragments, has an unknown opcode, continues nothing, begins a message within one, or ends one of an unknown opcode |
| WebSocketExample.MaskedHello | src/http/wsconnection.cpp:81-130 | the masked frame of section 5.7 of RFC 6455 is delivered as "Hello" |
| WebSocketExample.FragmentedHello | src/http/wsconnection.cpp:271-320 | so are its two fragments |
| WebSocketExample.PingHello | src/http/wsconnection.cpp:322-353 | its ping is reported with its data |
| WebSocketExample.SendHello | src/http/wsconnection.cpp:382-433 | and its single frame is what is sent |
| CallbackQueue.AlwaysInv | src/ioloop.cpp:144-169 | over every interleaving of adders and loop: the lock excludes, callbacks run in push order, each at most once, and no wake-up is lost |
| CallbackQueue.RunGrows | src/ioloop.cpp:144-169 | what has been pushed or executed stays so |
| CallbackQueue.AllPushed | src/ioloop.cpp:144-158 | over every interleaving: once nobody is in a call, what was pushed is what the calls asked for, each once |
| CallbackQueue.StopTakes | src/ioloop.cpp:58-64 | a call of stop that has returned has cleared `m_running`, whatever went on beside it |
| CallbackQueue.OnlyStop | src/ioloop.cpp:58-75 | nothing else clears it |
| CallbackQueue.Drains | src/ioloop.cpp:66-75 | once the adders are done, the loop runs every callback without waiting for a timeout |
| CallbackQueue.Rests | src/ioloop.cpp:66-75 | with nothing left to do the loop comes to wait |
| CallbackQueue.Stops | src/ioloop.cpp:58-75 | once a stop is done, the loop ends without waiting for a timeout |
| TimingWheel.FiresThen | src/timingwheel.cpp:48-69 | a handler added once fires in the tick it is due in and in no other |
| TimingWheel.SlotLocates | src/timingwheel.cpp:71-91 | the slot returned locates the handler until it fires |
| TimingWheel.Wheel.Add | src/timingwheel.cpp:71-91 | the handler joins the agenda for tick q from now, or after a whole turn from inside a tick with q = 0, and the slot is its place there; a timeout of a turn or more is refused |
| TimingWheel.Wheel.OnTimer | src/timingwheel.cpp:48-69 | a tick fires exactly what the agenda has for it, in the order of adding, whatever the handlers add meanwhile |
| Connection.LeftExact | src/connection.cpp:183-243 | what a partial write leaves is what was not taken, in order |
| Connection.Conn.HandleWrite | src/connection.cpp:183-243 | bytes on the wire followed by the send buffer are what was accepted, for every answer of the kernel, also with sends made by the write-complete callback; when such a send is left in the buffer without an event to come is exact |
| Connection.Conn.Transmit | src/connection.cpp:279-287 | data is accepted when connected, else -1 is returned |
| Connection.Conn.Disconnect | src/connection.cpp:245-260 | the descriptor is closed once |
| Connection.Conn.OnHandler | src/connection.cpp:97-118 | a write-ready event offers the send buffer to the kernel, data that comes in and the end of the peer are reported, and an error ends the connection |
| Connection.Conn.OnEstablished | src/connection.cpp:50-67 | a new connection becomes connected and is reported, any other stays as it is |
| Connection.Stalls | src/connection.cpp:210-218 | what the callback sends when a write is complete stays in the buffer without an event to send it |
| Connection.Conn.Live | src/connection.cpp:50-287 | every run keeps wire and buffer together equal to what was accepted until a write fails for good, never moves the status back, and reports the close at most once; bytes that wait for a write-ready event go on doing so if the callback does not send |
| Base64.RoundTrip | src/polarssl/base64.c:42-163 | decoding undoes encoding for every byte string |
| Base64Alphabet.AlphabetExact | src/polarssl/base64.c:13-21 | the letters are those of table 1 of RFC 4648 |
| Base64.RoundTripBroken | src/polarssl/base64.c:106-163 | also with LF or CRLF inserted anywhere in the text |
| Base64.EncodedProper | src/polarssl/base64.c:42-101 | encoded text is in order for the decoder and has no line breaks |
| Base64.EncodedLength | src/polarssl/base64.c:51-67 | the length computed is 4*ceil(n/3) |
| Base64.Encode | src/polarssl/base64.c:42-101 | the encoding and a NUL are written and nothing behind them, or the length needed is returned with nothing written |
| Base64.Check | src/polarssl/base64.c:111-133 | the first loop accepts exactly text in the alphabet with its paddings last and its line breaks whole, and counts what matters |
| Base64.Decode | src/polarssl/base64.c:106-163 | the bytes are those the text stands for, within the bound computed, and nothing behind them is written |
| Base64.Base64Encode | src/stringutil.cpp:113-126 | the wrapper's buffer suffices; for no bytes the result is four zeros |
| Base64.Base64Decode | src/stringutil.cpp:128-141 | the wrapper's buffer suffices; refused text gives nothing, text without characters gives zeros |
| Sds.String.MakeRoomFor | src/redis/sds.c:68-88 | there is room for as much as asked, with twice the capacity that is needed if it grows, and the bytes are kept |
| Sds.String.CatLen | src/redis/sds.c:107-119 | the bytes are appended, and the string is still terminated |
| Sds.String.KeepRange | src/redis/sds.c:200-229 | the bytes kept in place are those between two ends that may count from the back |
| Sds.SplitLen | src/redis/sds.c:271-335 | joining the pieces gives the string back, no piece holds the separator, and each ends where the separator first occurs |
| SdsQuote.CatRepr | src/redis/sds.c:359-397 | the quoted form is appended |
| SdsQuote.HexExact | src/redis/sds.c:359-397 | a byte that is not printable and has no escape of its own is written as its two hexadecimal digits |
| SdsQuote.SplitQuoted | src/redis/sds.c:399-482 | splitting a line of quoted strings gives them back, but for bytes that were written in hexadecimal |
| SdsQuote.SplitPlaced | src/redis/sds.c:399-482 | words, and text in quotes with its escapes, separated by white space, are the arguments of the line |
| SdsQuote.SplitRefused | src/redis/sds.c:399-482 | a quotation that is not closed, or has text glued to its end, has the line refused, whatever arguments come before it |
| SdsQuote.QuotingInverse | src/redis/sds.c:359-482 | splitting undoes quoting if and only if every byte is printable or one of the five control characters with an escape of their own |
| SdsQuote.SplitArgs | src/redis/sds.c:399-482 | the loops with their quotation flags find the arguments that the line denotes, or refuse it |

## Findings

Properties that the code does not have, each with the condition under which it
does.

- The port of a URL is read with `strtoul` to the first byte that is no digit, be
  it behind the URL. `HttpUrl.PortPastTheEnd` gives an accepted input whose port is
  wrong; `HttpUrl.PortValue` the exact condition, for ports of any value
  (`src/http/http_parser.c:2090-2099`).
- A WebSocket message whose first fragment is empty is refused at its next
  fragment, because an empty buffer stands for no message at all.
  `WebSocket.Reassembly`, `WebSocket.EmptyFirstFragment` and
  `WebSocket.WsConnection.ReceiveAll` have the exact condition
  (`src/http/wsconnection.cpp:281-293`).
- An empty frame with a masking key is complete for the reader before its key. What
  of the key comes in a later call begins a new frame:
  `WebSocket.EmptyMaskedEndsEarly` (`src/http/wsconnection.cpp:148-160`).
- The length of a long frame is compared with the limit before its bytes are
  swapped, so that with the limit as it is set lengths from 2^16 to 2^40 - 1 are
  refused, among them those of messages the connection itself sends:
  `WebSocketFrame.EightRefused`, `WebSocketFrame.SentWithLimit`.
  `WebSocketFrame.ReadExact` and `WebSocketFrame.SentIsRead` have the exact
  condition for every length and limit (`src/http/wsconnection.cpp:199-240`).
- A first byte with reserved bits is not refused: the next case overwrites the
  answer, and the same byte is read as a length. `WebSocket.ReservedPasses` is an
  input; `WebSocket.ReservedRefused` says exactly when it is refused all the same
  (`src/http/wsconnection.cpp:85-97`, `src/http/wsconnection.cpp:132-146`).
- A call that begins a frame with a single byte reads the byte behind its buffer.
  `WebSocket.MessageOutOfNothing` is an input that yields a message nobody sent;
  `WebSocket.SingleByte` and `WebSocket.ReadAsItIs` are the exact conditions
  (`src/http/wsconnection.cpp:85-97`).
- An update of 2^32 bytes or more is counted modulo 2^32, so that the digest is
  padded with another length. `Hashing.FourGigabytes` is an input;
  `Hashing.UpdatesExact`, `Hashing.ShortExact` and `Hashing.OneUpdateExact` are the
  exact conditions, for any updates, for messages below 2^61 bytes and for a single
  update (`src/polarssl/sha1.c:215-219`).
- When a trailer follows a chunked body, the header reported last is reported once
  more and the last line of the trailer never, because the end of the headers
  reports the header at hand without dropping it. `HttpConversation.TrailerLost` is
  an input; `HttpMessage.TrailerExact` the exact condition
  (`src/http/httpparser.cpp:127-157`).
- A Content-Length or chunk size of 2^64 or more may pass the test for an overflow
  and is then taken modulo 2^64. `HttpRefusals.LengthMisread` is an input;
  `HttpRefusals.LengthExact` and `HttpRefusals.SizeExact` have the exact condition
  (`src/http/http_parser.c:1421-1443`, `src/http/http_parser.c:1674-1707`).
- A line end before a response is reported as the beginning of a message:
  `HttpLenient.BeforeResponse` (`src/http/http_parser.c:668-688`).
- A folded header value loses the blanks of its fold, for which section 4.2 of RFC
  2616 has a space: `HttpLenient.FoldRun`, `HttpLenient.FoldedValue`
  (`src/http/http_parser.c:1513-1521`).
- What the callback sends when a write is complete may stay in the send buffer with
  no write-ready event to come, because the interest in one is given up after the
  callback. `Connection.Stalls` is a run; `Connection.Conn.HandleWrite` has the
  exact condition for a callback that sends once, and `Connection.Conn.Live` shows
  that nothing stays behind if it does not send (`src/connection.cpp:210-218`).
- Hexadecimal escapes that quoting writes are not undone by splitting:
  `SdsQuote.QuotingInverse` (`src/redis/sds.c:359-482`).
- The base64 wrappers return zeros for empty input: `Base64.Base64Encode`,
  `Base64.Base64Decode` (`src/stringutil.cpp:113-141`).

## Left out

- HttpLength.LengthRun: Content-Length is the last header there; `HttpMessage.MessageRun` states it for any header lines.
- HttpLength.LengthBody: Content-Length is the last header there; `HttpMessage.MessageParsed` states it for any header lines.
- HttpHeaders.LineRun: values are not folded and lines end in CRLF.
- HttpHeaders.BlockRun: values are not folded and lines end in CRLF.
- HttpMessage.MessageRun: values are not folded and lines end in CRLF, for which see `HttpLenient.FoldRun` and `HttpLenient.BareLf`; for a Content-Length or chunk size from 2^64 - 1 on see `HttpRefusals.LengthExact` and `HttpRefusals.SizeExact`.
- HttpMessage.MessageParsed: as `HttpMessage.MessageRun`.
- HttpRequest.StartRun: one space between the parts, and a version; for more spaces and for lines without a version see `HttpLenient.SpacesRun` and `HttpLenient.ShortLine`.
- HttpResponse.StartRun: one space before the code and CRLF at the end; for a line that ends in LF alone see `HttpLenient.PhraseLf`.
- HttpConversation.MessageTaken: start lines and headers as in `HttpRequest.StartRun`, `HttpResponse.StartRun` and `HttpMessage.MessageRun`; a parser that takes either kind is left to `HttpWords.MethodsExactEither`.
- HttpConversation.TurnsTaken: as `HttpConversation.MessageTaken`.
- HttpConversation.ServeAll: as `HttpConversation.MessageTaken`.
- HttpAssembler.Assembler.Execute: the code is 400 for every error; `m_errorCode`, which handlers of bodies and headers set when they refuse data, is not modelled, since data callbacks always succeed here.
- WebSocketFrame.EightRefused: for limits below 2^24 and lengths below 2^40; `WebSocketFrame.ReadExact` has no such bounds.
- WebSocketFrame.SentWithLimit: for lengths below 2^40; `WebSocketFrame.SentIsRead` has no such bound.
- RedisFormat.CollectArguments: printf conversions other than `%s`, `%b` and `%%`; a `%s` argument ends at its first NUL.
- RedisFormat.FormatCommand: as `RedisFormat.CollectArguments`.
- HttpUrl.Url.Parse: URLs have at most 65535 bytes and the result is zero-initialised, as the 16-bit fields require.
- HttpUrlGrammar.PartsScanned: at most 65535 bytes, as the 16-bit fields require; `HttpUrlGrammar.ComposedExact` has no such bound.
- HttpUrlText.UrlExact: at most 65535 bytes, as the 16-bit fields require.
- HttpUrlText.FieldsExact: at most 65535 bytes, as the 16-bit fields require.
- HttpUrlText.ParseWritten: as `HttpUrlText.FieldsExact`; what is read behind a port at the end of the URL is `HttpUrl.PortValue`.
- HttpRefusals.RefusedExact: for callbacks that let everything pass; `HttpRefusals.StoppedBy` has those that do not.
- HttpRefusals.StoppedBy: a callback that always answers the same.
- HttpLenient.FoldRun: behind a header without a meaning of its own for the parser.
- RedisFormat.WordsAreArguments: as `RedisFormat.CollectArguments`, and no "%" at the end of the format.
- TimingWheel.Wheel.OnTimer: `update` and `remove` do not occur; `update` clears the entry it aliases.
- Hooks of the HTTP parser: the answer of a callback is a function of the notification and the parser, so that a callback with a memory of its own is not covered; data callbacks always succeed, pausing is an answer, and unpausing is not modelled.
- Pointer identity, allocation failure, and sizes beyond `INT_MAX` in hiredis and sds; Redis numerals beyond their C type stop the reader model, as they have no defined value.
- The compression function of MD5, which is a parameter of the streaming model; the `_file` and `_self_test` functions.
- Bytes behind a complete WebSocket frame in the same call, which the code drops.
- The poller, sockets, timers, signals, processes and logging; the handler table of the loop; the kernel's answers are parameters.
- `StringUtil::hex`, `HttpUtil`, connection pools, routing, handshakes and the normalisation of header names: thin code.
- RedisWire.ReadSpelled: numerals beyond their C type, which have no defined value.

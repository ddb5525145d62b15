# Proofs about hurl's parsers and data structures

hurl is an HTTP load tester. Beneath its event loop lie an incremental HTTP parser, a JSON library and a few smaller
codecs. This project models them in Dafny and proves what they are relied on for. Each model has the branches, edge
cases, error conditions and constants of its source; where the source updates objects or buffers in place, the model is
a class or an array algorithm, proved against a function whose own laws are proved beside it.

## How the project is laid out

**HTTP parser** (`ext/http_parser`). `HttpTypes` has the vocabulary, `HttpStep` one pass through the big switch as a pure
function, `HttpRun` the byte-by-byte machine that folds it. `HttpInvariant` holds the invariant of every reachable state.
`HttpMarks`, `HttpBulk` and `HttpLoop` relate the loop of the source, with its marks into the buffer and its bulk runs over
names, values and bodies, to the machine; `HttpParser` is the object itself. `HttpHead` says which header names and values
the parser recognizes, `HttpStartLine` reads the first lines of messages, `HttpChunked` writes and reads chunked bodies, and
`HttpMessage` whole messages. `HttpUrl` is the URL splitter and `HttpUrlParts` puts URLs together. Both builds of the source
are covered: `cfg.strict` is HTTP_PARSER_STRICT (the build uses 0).

**JSON** (`ext/rapidjson`). `JsonRecursive` and `JsonIterative` are the two parsers as functions, `JsonEquivalence` proves
them one, `JsonReader` has them as the methods of a stream with a stack. `JsonString`, `InsituString` and `JsonNumber` are
the lexers, and `JsonLexers` shows they meet what the two parsers assume. `JsonText` puts texts of the JSON grammar
together, token by token with any white space, and has them read; `JsonGrammar` shows that nothing else is accepted.
`JsonQuoted` and `JsonDecimal` do so for strings and for decimal numbers, and `JsonWritten` writes whole values for the
parsers with their own lexers. `JsonSharedStack` is the parsers' stack in bytes, which strings and states share.
`JsonDocument` rebuilds trees from events and `JsonCounts` says what a parse leaves on its stack; `MembersMap` is an
object's members with their multimap; `PointerTree` resolves JSON Pointers in trees, `PointerIndex`, `PointerText` and
`PointerParser` parse and write them. `PointerSteps` says what single tokens do, `PointerEscapes` how pointers are written
character by character, and `PointerPaths` resolves the paths the validator spells. `Utf8` is the codec, `MemoryPool` the
allocator, `SchemaHasher` and `ValidatorPath` two stack machines of the schema validator.

**Base64** (`ext/base64`). `Base64`. `Ascii` holds the bytes, digits and characters several modules share.

## What turned out otherwise

- A run of header bytes is counted with one 32-bit addition. A turn of the loop is right exactly if the count is within the
  limit, or its remainder modulo 2^32 still is beyond it, or the turn fails anyhow (`HttpLoop.Turn`); a header name of 2^32
  letters in one buffer is taken, although the same bytes in smaller buffers overflow the limit (`HttpLoop.HugeName`).
  Whatever keeps within the limit is counted rightly, in buffers of any length (`HttpLoop.CountedOrOverflows`).
- A header name that only begins as Transfer-Encoding does, such as `Transfer-Encoding-Level`, sets
  uses_transfer_encoding although its value is not looked at (`HttpHead.LongerNameCounts`); `HttpHead.NamePartRead` says
  exactly which names do.
- The two JSON parsers report different codes for a document that begins with a stray bracket or delimiter, and when the
  handler rejects a bracket they report offsets one apart, because one asks the handler before it takes the bracket and the
  other after, except where the bracket closes behind a comma (`JsonEquivalence.ParsersAgree`, `CommaDecides`).
- Counts of members and elements are 32 bits wide: a parse leaves one value exactly when every array and object in it has
  fewer than 2^32 entries (`JsonCounts.ParseLeavesOneValue`), and an array of 2^32 empty arrays leaves 2^32 + 1 values
  (`JsonCounts.TooManyElements`).
- The length of a string on the parser's stack is counted in 32 bits, with its NUL. A string of 2^32 - 1 bytes is handed
  over as what lies in memory behind it (`InsituString.LongestString`); of a longer one the parser hands over the end and
  leaves the rest on the stack, where the table-driven parser then takes letters for its count and its state
  (`JsonLexers.LongStringDisagrees`). Shorter strings come to no harm (`InsituString.InsituIsSeparate`,
  `JsonLexers.WholeParsersAgree`).
- The hasher pops twice the count of members in 32 bits: it leaves one word exactly when all objects have fewer than 2^31
  members (`SchemaHasher.HashLeavesOne`), and 2^32 + 1 words for an object of 2^31 members (`SchemaHasher.TooManyMembers`).
- Half as much capacity again is computed in 32 bits: a member added to a full block of 2863311531 is put behind its places
  (`MembersMap.AddPastEnd`), and of no smaller one (`MembersMap.GrowthIsGrowth`).
- The 16-bit place of a port in a URL of 64 KiB or more may hold letters, which are converted as if they were digits
  (`HttpUrl.LettersConverted`).
- The room reserved for a name in the validator's path, twice its length in 32 bits, is enough exactly below 2^31 characters
  (`ValidatorPath.RoomForToken`); a pointer keeps its names whole exactly if they are below 4 GiB
  (`PointerParser.Pointer.constructor`); Base64 decoding, with its length in an int, gives back what was encoded exactly
  below 2^31 characters (`Base64.DecodedBack`).
- With equal member names the multimap may find another member than the scan does; they are bound to agree exactly on the
  names no two members bear (`MembersMap.LookupIsScan`).
- A pointer token such as `10000000000` wraps in 32 bits and gets past the overflow test (`PointerIndex.WrapNotSeen`);
  `PointerIndex.IndexIsDocumented` says exactly which numerals get the documented index.
- Turning an array on the way into an object loses everything that was in it, and nothing else is ever lost
  (`PointerTree.SetKeepsOthers`).
- The pool's sizes wrap in 64 bits: the rounding above 2^64 - 8, the sum with what is used of the chunk
  (`MemoryPool.SumWraps`), and the sum with the chunk header, so that a request for 2^64 - 16 bytes asks for 8
  (`MemoryPool.HeaderWraps`). Malloc and Realloc are sound exactly if none of them wraps.
- With the validation flag, a lead byte right before the NUL at the end of a buffer makes the string parser read behind the
  buffer (`InsituString.LeadBeforeNul`); it does not on UTF-8 (`InsituString.Utf8Fits`), nor if no byte before the NUL
  announces tails beyond the end (`InsituString.NoOverhangFits`).
- With a positive exponent, the 32-bit arithmetic on it is safe for every exponent exactly down to 214748055 digits of
  fraction taken (`JsonNumber.PlusLimit`), with a negative one exactly down to 2147483549 (`JsonNumber.MinusLimit`); only
  zeros right behind the point can be that many, as in `JsonNumber.LongFractionFails`.
- A URL with a fragment right behind its authority is rejected, though RFC 3986 has such URLs
  (`HttpUrlParts.SplitAssembled`).

## Model

| member | source | states |
|---|---|---|
| HttpInvariant.TransitionInv | ext/http_parser/http_parser.cc:717-2119 | each pass through the switch keeps the invariant: bounds of index, content_length and status_code, and what each chunk and body state knows of them |
| HttpInvariant.RunInv | ext/http_parser/http_parser.cc:641-2155 | the invariant holds after every byte of every run, from any state that satisfies it |
| HttpInvariant.NoAssertFires | ext/http_parser/http_parser.cc:1370-2119 | in no run from a new parser, on any input, under any configuration, does an assertion of the switch fail |
| HttpMarks.TransitionOrderly | ext/http_parser/http_parser.cc:717-2123 | each pass sets, reports and drops marks in step with the state: the action is one the state before allows, and the mark it leaves is the one the state after expects |
| HttpMarks.CallbackData | ext/http_parser/http_parser.cc:104-125 | a data callback reports exactly the bytes since the mark |
| HttpRun.RunConcat | ext/http_parser/http_parser.cc:641-2155 | running two inputs one after the other is running their concatenation |
| HttpRun.HaltedStays | ext/http_parser/http_parser.cc:661-664 | a machine that failed or left for another protocol takes no more bytes |
| HttpBulk.FieldBytes | ext/http_parser/http_parser.cc:1256-1381 | taking a run of header-name bytes one by one amounts to matching them and counting them, or to the overflow of the limit |
| HttpBulk.ValueBytes | ext/http_parser/http_parser.cc:1482-1706 | the same for a run of header-value bytes |
| HttpBulk.BodyBytes | ext/http_parser/http_parser.cc:1944-1985 | taking n bytes of a body of known length reports them and leaves the rest of the length |
| HttpBulk.GeneralRun | ext/http_parser/http_parser.cc:1509-1530 | the search for the end of a line in a value no keyword matches ends at the first CR, LF or rejected byte, or where the limit is passed |
| HttpLoop.Turn | ext/http_parser/http_parser.cc:714-2123 | one turn of the loop, bulk or single, does what the machine does on the bytes it takes, exactly if its 32-bit counting tells the truth or it ends in an error |
| HttpLoop.FieldTurn | ext/http_parser/http_parser.cc:1256-1395 | a header name is taken up to its first byte that is no token; the counter after it, its end and its callback decide how the turn ends |
| HttpLoop.ValueTurn | ext/http_parser/http_parser.cc:1482-1706 | the same for a header value, with the byte the fast path steps over at the limit |
| HttpLoop.CountedOrOverflows | ext/http_parser/http_parser.cc:154-160 | on any buffer, of any length, the 32-bit counter is right in every turn, or the byte-by-byte run overflows the limit |
| HttpLoop.ShortIsCounted | ext/http_parser/http_parser.cc:154-160 | a buffer that with the limit is shorter than 2^32 is counted rightly |
| HttpLoop.HugeName | ext/http_parser/http_parser.cc:1374-1381 | the turn at a header name of 2^32 letters takes them all with the counter as before, where the machine overflows |
| HttpLoop.Leftovers | ext/http_parser/http_parser.cc:2125-2145 | at the end of a buffer at most one mark is left, and reporting it completes the callbacks of the run |
| HttpParser.HttpParser.Loop | ext/http_parser/http_parser.cc:687-2155 | the loop over a buffer leaves the parser, callbacks and count of the byte-by-byte run, exactly if the counter is right throughout or the call fails |
| HttpParser.HttpParser.EofCall | ext/http_parser/http_parser.cc:666-684 | an empty buffer ends a message that lasts to the end of the connection, is fine between messages, and is an error elsewhere |
| HttpParser.HttpParser.Execute | ext/http_parser/http_parser.cc:641-2155 | one call: nothing in error, the end of input on an empty buffer, the run of the machine otherwise, under the same exact condition, which holds whenever the run keeps within the limit |
| HttpParser.HttpParser.ExecuteAll | ext/http_parser/http_parser.cc:641-2155 | calls on one piece after another amount to the run over all pieces joined, under the same exact condition |
| HttpParser.SplitInvariance | ext/http_parser/http_parser.cc:641-2155 | an input whole and the same input cut anywhere succeed together, with the same parser, the same callbacks up to cuts in data, and the same count, if both are counted rightly, as all are that keep within the limit; if the pieces are, exactly if the whole is or fails anyhow; a different error only past the limit |
| HttpChunked.ReadHex | ext/http_parser/http_parser.cc:1996-2060 | the hexadecimal size written for a chunk is read back as its length |
| HttpChunked.ReadChunk | ext/http_parser/http_parser.cc:1996-2116 | an encoded chunk is reported as its length and its payload, and the parser is ready for the next |
| HttpChunked.ReadBody | ext/http_parser/http_parser.cc:1795-2116 | decoding undoes chunked encoding: the chunks as written, one end of message, every byte consumed |
| HttpChunked.BodyIsPayload | ext/http_parser/http_parser.cc:2078-2100 | the body bytes so reported are the payload |
| HttpChunked.DecodeInPieces | ext/http_parser/http_parser.cc:641-2155 | the same for a parser fed the encoded body in pieces of any length cut anywhere |
| HttpHead.NamePartRead | ext/http_parser/http_parser.cc:1206-1392 | from any line start, a name of token characters in any letter case, its colon and white space leave the header state of the keyword it is, and of no keyword if it is none; uses_transfer_encoding is set exactly if the name begins with transfer-encoding |
| HttpHead.LengthLine | ext/http_parser/http_parser.cc:1436-1568 | a Content-Length line whose flag is clear leaves the number its digits stand for, exactly if that is below 18446744073709551610, and fails with InvalidContentLength otherwise |
| HttpHead.LengthIsDigits | ext/http_parser/http_parser.cc:1537-1556 | within a length nothing but digits and a space go on |
| HttpHead.UnrelatedLine | ext/http_parser/http_parser.cc:1206-1735 | a line with any other name and a visible value is reported and changes nothing |
| HttpHead.VisibleAre | ext/http_parser/http_parser.cc:1503-1530 | in a value nobody looks into exactly the visible characters and tabs go on, unless the parser is lenient |
| HttpHead.WordLine | ext/http_parser/http_parser.cc:1415-1480 | a line whose value is chunked, close or keep-alive, in any letter case under its name, ends in the header state for that |
| HttpStartLine.MethodRead | ext/http_parser/http_parser.cc:927-1022 | from a new parser each of the 34 method names and a space leave that method, through all the guesses between |
| HttpStartLine.PathBytes | ext/http_parser/http_parser.cc:493-639 | exactly the printable bytes, and beyond a strict build tabs, form feeds and high bytes, go on within a path, query or fragment |
| HttpStartLine.RequestLineRead | ext/http_parser/http_parser.cc:927-1203 | a request line from method, target and version, each as written by its standard, is reported and leaves method and version |
| HttpStartLine.StatusLineRead | ext/http_parser/http_parser.cc:731-925 | a status line from version, three digits and any reason is reported and leaves version and code |
| HttpMessage.LineNoted | ext/http_parser/http_parser.cc:1719-1793 | what a line says is noted in length, flags and coding when the next line begins |
| HttpMessage.LinesRead | ext/http_parser/http_parser.cc:1206-1793 | the same for any number of lines, with all names and values reported in order |
| HttpMessage.IdentityRead | ext/http_parser/http_parser.cc:1944-2000 | a body of the announced length is reported byte for byte and ends its message |
| HttpMessage.MessageRead | ext/http_parser/http_parser.cc:641-2155 | a message written from first line, header lines and content, whose head announces that content by length, by chunked coding or as none: from a new parser of any type exactly its parts, one end of message, every byte taken, and a record that holds what the head says |
| HttpMessage.ReadInPieces | ext/http_parser/http_parser.cc:641-2155 | the same for a parser object fed the message in pieces cut anywhere |
| HttpUrl.ParsedUrl.ParseHost | ext/http_parser/http_parser.cc:2335-2415 | the second pass leaves userinfo, host and port as the host states find them, or fails where they do |
| HttpUrl.ParsedUrl.ParsePort | ext/http_parser/http_parser.cc:2515-2540 | the loop that gives up early converts any bytes as the source does, each less the character zero in 64 bits; of digits it accepts exactly those whose value is at most 65535, and gives that |
| HttpUrl.LettersConverted | ext/http_parser/http_parser.cc:2525-2535 | the bytes `p:`, which a 16-bit place may hold, are the port 650 |
| HttpUrl.ParsedUrl.ParseUrl | ext/http_parser/http_parser.cc:2423-2543 | both passes, the checks between them and the port, on inputs of any length: the fields in 16 bits, nothing outside the buffer looked at, and whatever bytes the place of the port then holds converted |
| HttpUrlParts.SplitAssembled | ext/http_parser/http_parser.cc:493-639 | for every URL from good scheme, userinfo, host or bracketed address with zone, port, path, query and fragment: accepted with the fields where the parts were put and the port their value, unless a fragment follows the authority directly |
| HttpUrlParts.LayoutShows | ext/http_parser/http_parser.h:351-378 | each field is set exactly when its part is there, and cuts out just that part |
| HttpUrlParts.CharactersAre | ext/http_parser/http_parser.cc:416-442 | the parts may be made of the character classes of section 2 of RFC 3986, with the exceptions stated |
| JsonEquivalence.SimulateValue | ext/rapidjson/reader.h:1752-1768 | from any state that expects a value the table-driven parser does what ParseValue does, then goes on |
| JsonEquivalence.ParsersAgree | ext/rapidjson/reader.h:2192-2224 | both parsers accept the same texts with the same events, counts and end; they reject with the same code, events and offsets, one apart exactly for a rejected bracket that does not close behind a comma, except for a stray first token |
| JsonEquivalence.CommaTaken | ext/rapidjson/reader.h:2072-2078 | a state behind a comma is reached exactly by taking one |
| JsonEquivalence.CommaDecides | ext/rapidjson/reader.h:808-852 | a handler that rejects the outer bracket of `[[],]` and `[[]]` sees equal offsets for the first and offsets one apart for the second |
| JsonEquivalence.OffsetsEqual | ext/rapidjson/reader.h:739-853 | when the handler rejects nothing, errors are equal in all respects |
| JsonReader.Reader.Parse | ext/rapidjson/reader.h:559-597 | the recursive-descent methods over the stream do what the recursive function says |
| JsonReader.Reader.Transit | ext/rapidjson/reader.h:2011-2160 | a transition over the stream and the explicit stack is the transition of the function |
| JsonReader.Reader.IterativeParse | ext/rapidjson/reader.h:2192-2224 | the table-driven loop over the stream and the stack does what its function says |
| JsonReader.ParseBoth | ext/rapidjson/reader.h:600-608 | two readers on one text, one parsing each way, accept together and then have sent the same events |
| JsonText.ValueRead | ext/rapidjson/reader.h:739-894 | a text put together by the grammar of section 2 of RFC 8259, with any white space and any lexemes that read as their values, is read to its end and reported as the value it denotes, wherever it stands |
| JsonText.DocumentRead | ext/rapidjson/reader.h:559-597 | so both parsers read every such document, and a document object built from it holds just that value exactly if its counts fit 32 bits |
| JsonGrammar.AcceptedIsWritten | ext/rapidjson/reader.h:559-597 | the converse: whatever text either parser accepts, without comments and trailing commas, is white space, one text of that grammar with lexemes of the text, and white space; the events are those of the value it denotes |
| JsonWritten.IntegerBack | ext/rapidjson/reader.h:1483-1582 | every integer from -2^63 up to 2^64 - 1 is read from its decimal digits |
| JsonWritten.NumberStands | ext/rapidjson/reader.h:1468-1748 | a number by itself is the same number within any text that does not continue it |
| JsonWritten.WrittenIsRead | ext/rapidjson/reader.h:559-597 | with the lexers they have, both parsers give back every value from its compact text: strings escaped, integers in decimal, doubles by their digits |
| JsonDecimal.ReadDecimal | ext/rapidjson/reader.h:1468-1748 | for every number with a fraction or an exponent, written from sign, digits, mark and exponent: its sign, its digits up to some digit of the fraction, and the power of ten at that digit, unless it is too big |
| JsonLexers.LexersAreGood | ext/rapidjson/reader.h:959-986 | ParseString and ParseNumber make progress, stay inside the text, and refuse at once where no number can begin |
| JsonLexers.WholeParsersAgree | ext/rapidjson/reader.h:559-597 | the two parsers with their own lexers agree, with nothing assumed; also over the bytes of the stack they share with the strings, and whatever lies behind it, if every string with its NUL is shorter than 2^32 bytes, as all are in a text below 4 GiB |
| JsonLexers.LongStringDisagrees | ext/rapidjson/reader.h:926-986 | for one string of 2^32 letters in an array, the recursive parser reports an empty string and one element, and the table-driven parser pops letters for its count and its state |
| JsonLexers.NumberIsParsed | ext/rapidjson/reader.h:1468-1748 | the lexer of numbers gives the number, position or error that ParseNumber sends |
| JsonSharedStack.LoopInBytes | ext/rapidjson/reader.h:2011-2224 | over the bytes of the stack, the table-driven parser does what it does over frames, as long as its strings fit |
| JsonSharedStack.RecursiveHanding | ext/rapidjson/reader.h:976-986 | as long as its strings fit, the recursive parser hands over what it reads |
| JsonSharedStack.LongStringShared | ext/rapidjson/reader.h:2108-2140 | after a string of 2^32 letters the end of the array pops eight of them |
| JsonDocument.ReplayAccept | ext/rapidjson/document.h:1933-1970 | the document handlers undo Accept of any tree at any depth, whatever is below on the stack |
| JsonDocument.Document.EndObject | ext/rapidjson/document.h:2832-2838 | the popped names and values become the members of the object below them |
| JsonDocument.Document.Populate | ext/rapidjson/document.h:2804-2844 | sending a tree's events to the document puts an equal tree on its stack |
| JsonCounts.ReplayReported | ext/rapidjson/document.h:1933-1970 | what the events of any value with 32-bit counts leave on any stack |
| JsonCounts.FitLeavesOne | ext/rapidjson/document.h:2832-2844 | nothing is left behind exactly when all counts fit 32 bits, and then the value itself is left |
| JsonCounts.ParseLeavesOneValue | ext/rapidjson/document.h:2626-2636 | a successful parse of any text, by either parser, reports the events of a value with 32-bit counts and leaves 1 + n - n mod 2^32 for each array, and twice that for each object, on the stack: one value, that value, exactly when all counts fit; below 4 GiB they do |
| JsonCounts.TooManyElements | ext/rapidjson/reader.h:808-852 | the text of an array of 2^32 empty arrays parses, reports no elements and leaves 2^32 + 1 values |
| JsonString.ParsedIsUtf8 | ext/rapidjson/reader.h:991-1068 | with the validation flag every accepted string is UTF-8, however it was escaped |
| JsonString.EscapedCodepoint | ext/rapidjson/reader.h:1022-1045 | a Unicode escape or surrogate pair gives the encoding of a scalar value, never more than the last code point |
| JsonString.EscapeAllBack | ext/rapidjson/reader.h:1022-1045 | any sequence of scalar values written with escapes only is read back as its UTF-8 encoding |
| JsonString.PairedIs | ext/rapidjson/reader.h:1028-1037 | a surrogate pair stands for 0x10000 and its twenty bits |
| JsonString.HexNumberIs | ext/rapidjson/reader.h:906-925 | four hexadecimal digits are read highest first |
| JsonQuoted.WrittenBack | ext/rapidjson/reader.h:991-1068 | every string, written with the escapes of section 7 of RFC 8259 byte for byte, is read back: any bytes without the validation flag, any UTF-8 with it |
| JsonQuoted.EscapesAreThese | ext/rapidjson/reader.h:994-1050 | which bytes may follow a backslash, exactly, and what each then stands for |
| JsonQuoted.OthersAreRaw | ext/rapidjson/reader.h:1051-1068 | which bytes stand for themselves, exactly, and where a string ends |
| JsonString.UnitIsShorter | ext/rapidjson/reader.h:1004-1068 | no escape stands for more bytes than it has |
| InsituString.ParseHex4 | ext/rapidjson/reader.h:906-925 | four hexadecimal digits give their number, anything else the error at the escape |
| InsituString.ValidateUnit | ext/rapidjson/encodings.h:179-202 | validating between two cursors of one buffer agrees with decoding what was there, and copies it, if what the lead byte announces is in the buffer |
| InsituString.ParseStringToStream | ext/rapidjson/reader.h:991-1068 | for two buffers or one, ending in a NUL: the string that the text meant before anything was written, with the write position never past the read position and nothing unread changed |
| InsituString.ParseInsitu | ext/rapidjson/reader.h:966-974 | in situ the string with its NUL lies where its text began, and what is around it is unchanged |
| InsituString.ParseToStack | ext/rapidjson/reader.h:976-986 | what is put on the stack is the string with its NUL; what is handed over, by a length in 32 bits, is the string exactly if that is shorter than 2^32 bytes |
| InsituString.InsituIsSeparate | ext/rapidjson/reader.h:959-986 | decoding in situ and to the stack give the same errors and positions, and hand over the same bytes exactly if the string with its NUL is shorter than 2^32 bytes |
| InsituString.LongestString | ext/rapidjson/reader.h:926-986 | for a string of 2^32 - 1 letters the bytes handed over from the stack begin where it ends |
| InsituString.NoOverhangFits | ext/rapidjson/encodings.h:179-202 | validation stays inside the buffer if no byte before the NUL announces tails beyond its end |
| InsituString.Utf8Fits | ext/rapidjson/encodings.h:179-202 | it does on every text in UTF-8 with its NUL at the end of the buffer |
| InsituString.LeadBeforeNul | ext/rapidjson/encodings.h:179-202 | it does not on a quote, F0 and NUL, where four bytes are taken of two |
| JsonNumber.ParseInteger | ext/rapidjson/reader.h:1483-1582 | the integer part, of any length, is its exact value in the narrowest width for its sign, or a double beyond 64 bits |
| JsonNumber.ParseNegativeExponent | ext/rapidjson/reader.h:1648-1665 | the exponent is exact up to its limit and stays beyond it after, and never leaves 32 bits, from any power of ten that is safe for all |
| JsonNumber.ParsePositiveExponent | ext/rapidjson/reader.h:1666-1673 | the exponent is exact, or an error exactly when it exceeds 308 less the digits of the fraction; wherever no step of its own leaves 32 bits |
| JsonNumber.FastFraction | ext/rapidjson/reader.h:1593-1608 | of a fraction of any length, only the zeros of a number below one and 17 more digits go into the 64-bit significand |
| JsonNumber.PlusLimit | ext/rapidjson/reader.h:1666-1673 | one more digit of a positive exponent stays within 32 bits, for all exponents, exactly down to this power of ten |
| JsonNumber.MinusLimit | ext/rapidjson/reader.h:1648-1665 | the same for a negative one, whose first digit is not looked at before the second is taken |
| JsonNumber.LongFractionFails | ext/rapidjson/reader.h:1666-1673 | a number with 214748055 zeros behind its point and the exponent 2147483649: the tenth digit leaves 32 bits |
| JsonNumber.ShortTextFits | ext/rapidjson/reader.h:1640-1675 | in a text of fewer than 2^27 characters the exponent arithmetic is safe |
| JsonNumber.ParseNumber | ext/rapidjson/reader.h:1468-1748 | each literal gives the first error of its grammar, or the event of its kind: integers of any length exactly, in the narrowest kind, doubles with the significand and power of ten of their digits |
| MembersMap.LookupIsScan | ext/rapidjson/document.h:2214-2223 | whatever the multimap may find is what the scan finds, exactly for names borne at most once |
| MembersMap.ObjectMembers.Add | ext/rapidjson/document.h:2289-2303 | appends the member and keeps the index: the map holds exactly the pairs (name, position) and each slot points at its own; the member has a place exactly if one was left or half as much capacity again fits 32 bits |
| MembersMap.GrowthIsGrowth | ext/rapidjson/document.h:2292 | a larger capacity is asked for exactly up to 2863311530 |
| MembersMap.AddPastEnd | ext/rapidjson/document.h:2289-2303 | at a full capacity of 2863311531 the member is put behind the places |
| MembersMap.ObjectMembers.Remove | ext/rapidjson/document.h:2305-2327 | the last member takes the place of the removed one, and the index is kept |
| MembersMap.RemovedIs | ext/rapidjson/document.h:2305-2327 | of the members exactly the removed one is gone, the last is in its place and every other where it was |
| MembersMap.ObjectMembers.Erase | ext/rapidjson/document.h:2329-2361 | the range is gone, the rest in order, and the index is kept |
| MembersMap.ObjectMembers.Reserve | ext/rapidjson/document.h:2176-2211 | a larger block with every iterator moved, counting by the map, which has as many entries as there are members |
| MembersMap.ObjectMembers.Clear | ext/rapidjson/document.h:2225-2235 | no members and no entries are left |
| MembersMap.IndexCount | ext/rapidjson/document.h:2185-2192 | the index has as many entries as there are members |
| MembersMap.UniqueKept | ext/rapidjson/document.h:2305-2361 | names borne once stay so when members are removed or erased |
| MembersMap.FindBothWays | ext/rapidjson/document.h:2267-2273 | map and scan find the same member for a name borne at most once |
| PointerTree.CreateReports | ext/rapidjson/pointer.h:464-511 | Create reports that the value existed exactly when Get finds it, and then changes nothing |
| PointerTree.CreateLeads | ext/rapidjson/pointer.h:464-511 | Create refers to what Get found or else to a new Null, and Set assigns there |
| PointerTree.SetThenGet | ext/rapidjson/pointer.h:738-745 | what was set is found by the same pointer and every longer one, exactly when the pointer did not append to an array |
| PointerTree.SetKeepsOthers | ext/rapidjson/pointer.h:464-511 | every other pointer that led somewhere leads to the same value, exactly when no array on its way became an object |
| PointerSteps.GetElement | ext/rapidjson/pointer.h:619-623 | an index leads on into that element of an array and nowhere behind its end |
| PointerSteps.GetMember | ext/rapidjson/pointer.h:612-618 | a name leads on into the value of the first member that bears it |
| PointerSteps.GetNothing | ext/rapidjson/pointer.h:611-632 | a name nobody bears, no index in an array, and anything in a scalar lead nowhere |
| PointerSteps.StoreElement | ext/rapidjson/pointer.h:484-492 | an index into an array: Nulls up to there, and only that element changed |
| PointerSteps.StoreBehind | ext/rapidjson/pointer.h:469-473 | `-` appends one element |
| PointerSteps.StoreMember | ext/rapidjson/pointer.h:493-504 | of an object only the first member that bears the name changes |
| PointerSteps.StoreNewMember | ext/rapidjson/pointer.h:493-501 | a new name is added behind the others |
| PointerSteps.StoreTurned | ext/rapidjson/pointer.h:475-501 | what is no object becomes one with a single member under a name |
| PointerSteps.StoreIndexed | ext/rapidjson/pointer.h:479-492 | a scalar becomes an array that ends at the index |
| PointerTree.Tree.Find | ext/rapidjson/pointer.h:607-635 | the loop of Get finds what the recursion finds, or reports the token that leads nowhere |
| PointerTree.Tree.CreateAt | ext/rapidjson/pointer.h:464-511 | the loop of Create changes the tree in place as the recursion says and returns the reference |
| PointerTree.Tree.Assign | ext/rapidjson/pointer.h:738-745 | the tree after assigning through the reference |
| PointerTree.Tree.FindOrAdd | ext/rapidjson/pointer.h:660-664 | the value that is there, or the default, which is then set |
| PointerIndex.IndexIsDocumented | ext/rapidjson/pointer.h:1028-1045 | the index of a numeral is the documented one exactly when its value fits 32 bits, or a digit makes the wrapped value drop, or it wraps onto the invalid index |
| PointerIndex.WrapNotSeen | ext/rapidjson/pointer.h:1033-1043 | 10000000000 is taken for 1410065408 |
| PointerIndex.StepsAreApart | ext/rapidjson/pointer.h:87-104 | parsed tokens whose numerals fit 32 bits meet what the laws of Set ask of pointers |
| PointerText.StringifyThenParse | ext/rapidjson/pointer.h:1069-1100 | Parse undoes Stringify: plainly for names of any bytes, as a URI fragment exactly for names in UTF-8 |
| PointerText.ParsedIsRecovered | ext/rapidjson/pointer.h:930-1060 | a pointer parsed from a text is recovered exactly from what it is written as |
| PointerText.NameIsWritten | ext/rapidjson/pointer.h:1078-1100 | writing a name as a fragment succeeds exactly when it is UTF-8 |
| PointerEscapes.PlainIsWritten | ext/rapidjson/pointer.h:1069-1100 | any tokens are written in the form of section 3 of RFC 6901, a tilde as ~0 and a slash as ~1, and read back from it with their indices |
| PointerEscapes.FragmentIsWritten | ext/rapidjson/pointer.h:1069-1100 | tokens of UTF-8 are written in the form of section 6 of RFC 6901, and read back from it |
| PointerEscapes.PlainIsParsed | ext/rapidjson/pointer.h:930-1060 | a plain text is accepted exactly if it begins with a slash and each tilde is followed by 0 or 1, and is then what is written for its tokens; otherwise the error is behind the first tilde where that fails |
| PointerPaths.PathsPoint | ext/rapidjson/schema.h:2512-2590 | every path the validator spells in a value with unique names, parsed and resolved by the pointer code, finds the value at which it was spelled |
| PointerParser.PercentDecodeStream.Take | ext/rapidjson/pointer.h:1119-1139 | a triplet gives its byte, anything else makes the stream invalid for good, whatever byte lies behind the source |
| PointerParser.DecodePercents | ext/rapidjson/pointer.h:972-989 | a percent-encoded sequence is decoded if it is UTF-8; whatever is written on the way stays inside the name buffer |
| PointerParser.ReadName | ext/rapidjson/pointer.h:968-1022 | the loop over a name puts its bytes in the buffer, behind what is there, and stays behind the read position |
| PointerParser.Pointer.constructor | ext/rapidjson/pointer.h:930-1060 | Parse gives the tokens or the first error and its offset, with all names and their NULs in a buffer as long as the source; the tokens keep their names by 32-bit lengths, whole exactly if all names are below 4 GiB; which texts these are is in `PointerEscapes` |
| PointerParser.Pointer.Stringify | ext/rapidjson/pointer.h:1069-1100 | writes the text of the tokens, or reports that a name is not UTF-8 |
| Utf8.EncodedIsUtf8 | ext/rapidjson/encodings.h:102-122 | the encoding of a code point is in the grammar of RFC 3629 exactly for scalar values, and stands for that code point |
| Utf8.EncodedBits | ext/rapidjson/encodings.h:102-122 | how long an encoding is and which bits of the code point each byte has: the table in section 3 of RFC 3629 |
| Utf8.DecodedIsUtf8 | ext/rapidjson/encodings.h:146-221 | Decode consumes what the lead byte announces and accepts exactly the grammar, with the code point whose encoding it consumed |
| Utf8.DecodeEncoded | ext/rapidjson/encodings.h:102-176 | decoding the encoding of a scalar value gives it back, whatever follows |
| Utf8.DecodeAllEncoded | ext/rapidjson/encodings.h:102-176 | the same for any sequence of scalar values |
| Utf8.EncodeAllDecoded | ext/rapidjson/encodings.h:102-176 | decoding accepts exactly the texts in UTF-8, and encoding gives the text back |
| Utf8.Encode | ext/rapidjson/encodings.h:102-122 | puts the encoding of the code point |
| Utf8.Decode | ext/rapidjson/encodings.h:146-176 | the verdict, code point and position of the decoding function |
| Utf8.Validate | ext/rapidjson/encodings.h:179-202 | agrees with Decode on verdict and consumption, and copies what it consumes |
| MemoryPool.Pool.Malloc | ext/rapidjson/allocators.h:320-333 | for all sizes: a new aligned block inside the used part of a chunk, apart from all others, exactly if neither the rounding nor the sums with the used part and with the header of a new chunk wrap; NULL exactly for size 0 or when there is no room and no new chunk |
| MemoryPool.Pool.Realloc | ext/rapidjson/allocators.h:336-368 | for all sizes: blocks stay aligned, apart and inside exactly if nothing wraps, and then the contents of the block and of all others are kept, in place and by copy |
| MemoryPool.Pool.AddChunk | ext/rapidjson/allocators.h:389-401 | a new chunk in front, in memory of the size asked for in 64 bits, keeps the pool sound exactly if its header and buffer together fit 64 bits |
| MemoryPool.Pool.Clear | ext/rapidjson/allocators.h:276-287 | only the first chunk is left, empty, and no block |
| MemoryPool.Pool.WithBuffer | ext/rapidjson/allocators.h:200-213 | the first chunk lies inside the user's buffer, from its first aligned address to its end |
| MemoryPool.Pool.Totals | ext/rapidjson/allocators.h:292-309 | the size is at most the capacity |
| MemoryPool.BlockGrown | ext/rapidjson/allocators.h:351-358 | growing the block that ends where the used part ends overlaps no other block |
| MemoryPool.AlignRoundsUp | ext/rapidjson/allocators.h:325-326 | rounding up is right exactly up to 2^64 - 8 |
| MemoryPool.SumWraps | ext/rapidjson/allocators.h:326-332 | with anything used of the chunk, a request that brings the sum to 2^64 is served with used memory, without a new chunk |
| MemoryPool.HeaderWraps | ext/rapidjson/allocators.h:389-401 | a request for 2^64 - 16 bytes on an empty chunk asks for 8 bytes and hands out what is behind them |
| SchemaHasher.ReplayHash | ext/rapidjson/schema.h:246-337 | for every value with its counts in 32 bits: one word and, for each object, 2n - 2n mod 2^32 more, for each array n - n mod 2^32; where nothing is too much, exactly the recursive hash, whatever lies above the stack |
| SchemaHasher.HashLeavesOne | ext/rapidjson/schema.h:246-337 | among the values whose counts fit their type, exactly those with fewer than 2^31 members in each object leave the one word, their hash |
| SchemaHasher.LoopInside | ext/rapidjson/schema.h:279-286 | the loop reads only what was popped exactly below 2^31 members |
| SchemaHasher.TooManyMembers | ext/rapidjson/schema.h:279-286 | for an object of 2^31 members nothing is popped and 2^32 + 1 words are left |
| SchemaHasher.ReorderedHash | ext/rapidjson/schema.h:279-286 | the hash is the same for every reordering of object members at any depth |
| SchemaHasher.PermutationReorders | ext/rapidjson/schema.h:279-286 | every permutation of members is such a reordering |
| SchemaHasher.HashApart | ext/rapidjson/schema.h:329-334 | of the two words that are hashed each decides the hash when the other is given |
| SchemaHasher.ChangeIsSeen | ext/rapidjson/schema.h:246-337 | an array with one element changed, or an object with the value of one member changed, hashes as before exactly if that element or value does |
| SchemaHasher.Hasher.EndObject | ext/rapidjson/schema.h:279-286 | for every 32-bit count: the loop over what is popped, and over what lies above it where the doubled count wraps |
| SchemaHasher.Hasher.HashValue | ext/rapidjson/schema.h:246-337 | a value accepted by the hasher leaves one more word, its hash, exactly if its counts fit |
| ValidatorPath.LeadsValue | ext/rapidjson/schema.h:2512-2590 | while the run is valid, the document stack spells the path of every value when it begins, and has lost exactly its token when it ends |
| ValidatorPath.DocumentPaths | ext/rapidjson/schema.h:2394-2420 | over a whole document, all paths are spelled in order and both stacks end empty |
| ValidatorPath.RoomForToken | ext/rapidjson/schema.h:2588-2603 | the room reserved for a name is enough for it exactly below 2^31 characters |
| ValidatorPath.EscapedToken | ext/rapidjson/schema.h:2588-2603 | an appended name has no slash of its own and can be read back |
| ValidatorPath.StripToken | ext/rapidjson/schema.h:2581-2584 | popping to the last slash removes exactly the last token |
| ValidatorPath.Validator.Handle | ext/rapidjson/schema.h:2345-2420 | each event changes the stacks and the verdict as the machine says, for any decisions of the schemas |
| ValidatorPath.Validate | ext/rapidjson/schema.h:2345-2420 | a validator that is still valid at the end has spelled the path of every value |
| Base64.DecodeEncoded | ext/base64/base64.cc:42-151 | decoding undoes encoding |
| Base64.DecodedBack | ext/base64/base64.cc:96-151 | decoding, with the length in an int, gives back what was encoded exactly if that has fewer than 2^31 characters |
| Base64.EncodedLength | ext/base64/base64.cc:42-94 | four characters for every three bytes or part of them |
| Base64.SameBits | ext/base64/base64.cc:55-58 | three bytes and their four sextets are the same 24 bits |
| Base64.EncodedIsSpelled | ext/base64/base64.cc:29-94 | the encoding is, for every six bits of the input, the character at that place of the literal alphabet, and padding up to fours |
| Base64.JoinedRest | ext/base64/base64.cc:127-148 | what is left over gives one byte less than there are characters, none with bits of a slot that was not filled |
| Base64.Encode | ext/base64/base64.cc:42-94 | the loops over the three-byte array produce the encoding |
| Base64.Decode | ext/base64/base64.cc:96-151 | the loops over the four-byte array produce the decoding of the characters before the first that is not in the alphabet, as far as the length kept in an int lets the loop see |

## Left out

- HttpParser.HttpParser.Execute: when a run fails, the callbacks before the error are not compared; where the counter is wrong and the call succeeds, only the soundness of the parser's fields is kept.
- HttpParser.SplitInvariance: pieces are not empty, because an empty buffer stands for the end of the connection, and the first upgrade ends the run.
- HttpMessage.MessageRead: for request targets that are paths, heads without Upgrade, with one Content-Length at most and single words in Connection and Transfer-Encoding; responses whose body ends with the connection and CONNECT are left out, and on_headers_complete returns 0.
- HTTP callbacks return 0, except on_headers_complete, which is any function of the headers with any of its replies; nobody pauses the parser.
- HttpUrlParts.SplitAssembled: for URLs shorter than 2^16 bytes, since offsets and lengths are 16 bits wide, that are not those of CONNECT requests.
- JsonEquivalence.ParsersAgree: for lexers that are functions of the text and make progress, which `JsonLexers.LexersAreGood` shows of the reader's own.
- JsonReader.Reader.IterativeParse: keeps its states in frames, as `JsonSharedStack.LoopInBytes` shows they lie on the stack; parses a whole document; parsing one token at a time is left out.
- JsonReader.Reader.Parse: takes its lexers as functions; the buffers they write to are in `InsituString`.
- JsonText.DocumentRead: for handlers that accept everything; comments and trailing commas are not written.
- JsonDecimal.ReadDecimal: under the condition of `JsonNumber.ParseNumber` on the zeros behind the point.
- PointerPaths.PathsPoint: for names of bytes and arrays of fewer than 2^32 elements.
- JsonCounts.ParseLeavesOneValue: for the table-driven parser over frames, which is what it does over bytes while its strings are shorter than 2^32 bytes (`JsonSharedStack.ParseInBytes`).
- InsituString.ParseInsitu: the length is that before the source asserts that it fits 32 bits.
- InsituString.ParseStringToStream: with the validation flag, no lead byte the parser comes to announces tails beyond the end of the buffer, as the source reads behind it then.
- JsonNumber.ParseNumber: doubles are reals, and the conversion of a significand and a power of ten is left to a predicate that says which are too big; a number below one with hundreds of millions of zeros right behind its point is left out where its exponent leaves 32 bits at the least power of ten those zeros may lead to; NaN, infinities, numbers kept as strings and the stack of digits of full precision are not modelled.
- MembersMap.ObjectMembers.Reserve: the blocks of memory are sequences, so that copying their bytes is not modelled.
- MembersMap.ObjectMembers.Find: std::multimap::find may return any entry of a key.
- PointerTree.Tree.CreateAt: references into the tree are paths of child positions; arrays have no 32-bit limit. Swap, Erase and GetUri are left out.
- PointerTree.SetKeepsOthers: for pointers in which equal indices come with equal names, as `PointerIndex.StepsAreApart` shows of parsed ones.
- PointerParser.Pointer.constructor: the array of tokens is a sequence; the allocator is not modelled.
- Utf8.Decode: behind the end of a stream there are NULs.
- MemoryPool.Pool.Malloc: what the base allocator returns is a parameter; after an unsound result the pool is no longer one the other methods speak of; reference counts and the ownership of the base allocator are left out.
- SchemaHasher.ReplayHash: how the record of a number lies in memory is any function of the number.
- ValidatorPath.LeadsValue: for names below 2^31 characters, as `ValidatorPath.RoomForToken` has it; what the schemas, the comparison of hashes and the output handler decide is any sequence of verdicts; validators inside validators, which start from a path of their own, and the 32-bit width of the element count are left out.
- Base64.Decode: where the length is negative as an int, for texts whose alphabetic part ends before the counter leaves 32 bits.
- Encodings other than UTF-8, the vectorised scanning of white space and strings, and the stream wrappers.
- Writers and pretty-printing, schema keywords, regular expressions, references and URIs of the validator.
- Hash functions and random numbers (`ext/cityhash`, `ext/tinymt`) and host name checks (`ext/hostcheck`).
- The load generator itself: sessions, connections, TLS, DNS and the command line.

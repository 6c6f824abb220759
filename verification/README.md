# A verified model of zbench's parsers, printers and session loop

zbench is an HTTP benchmark. It reads its benchmark description and prints its results with RapidJSON, serves its web
mode with Crow, prints requests into a shared buffer and drives many client sessions over it. This project models the
logic of these parts in Dafny and proves what they promise.

Imperative code is modelled by classes and methods with loops, each proved against a specification function; the
properties are then lemmas about those functions.

| part | files | what is proved |
|---|---|---|
| JSON | `Json*.dfy`, `Utf8Codec.dfy` | The recursive and the table-driven parser are one parser; a text is accepted exactly when it is written as RFC 8259 lets it be, or as a flag adds to that; what is refused, and where; the document builder and its replay are inverse; what either writer prints, for either target, is read back; integers are exact; the UTF-8 codec is that of RFC 3629, and ASCII escapes are read back |
| JSON pointer | `Pointer*.dfy` | Both text forms are read and printed inversely; creation, assignment and lookup in a tree agree; an assignment leaves all other places alone |
| Routes | `Route*.dfy` | Adding patterns, compressing the trie in place and searching it with backtracking agree with matching every pattern; patterns are read as they are written, and parameters take what their kinds convert |
| HTTP parser | `Http*.dfy` except `HttpRequest.dfy` | Any cut of a stream into buffers ends alike; the parser's own assertions hold; bodies are delivered exactly; headers and methods are recognised exactly; urls are accepted exactly by a grammar; when a connection stays; which bytes are refused |
| Templates | `Mustache*.dfy` | A text is compiled to a flat table with jumps exactly when it scans without an error and its tags are well nested; a template written from a tree is compiled back to that tree, and renders what the tree means with its texts; the lines of lone tags are cut exactly; blocks left open are accepted, and can make rendering endless |
| Memory pool | `PoolAllocator.dfy` | Blocks stay aligned, inside their chunk and apart; a resized block keeps its bytes |
| Requests and sessions | `HttpRequest.dfy`, `HttpRoundTrip.dfy`, `HttpDelivery.dfy`, `ReadBuffer.dfy`, `Client*.dfy` | When a printed request fills and keeps inside its buffer, and that it is understood by the HTTP parser and its receiver; a session's report is told from its completions alone; reports are right exactly when they should be; the closed loop keeps its balance |

Bytes are characters below 256 (`Bytes.dfy`). A text ends where a terminator would be read: `Peek` gives NUL from there on.

Where the code and what it says of itself differ:

- The two JSON parsers report different error codes for a root that starts with `]`, `}`, `,` or `:`
  (`JsonEquivalence.ParsersAgree` states both, `JsonEquivalence.CodesDiffer` is such a text).
- `ReadBufferAdapter::ConstBuffer` offers as many bytes as the whole request has, from the cursor on. A session can
  therefore write more than its request: `ClientSession.TooMuchWritten` is such a run, and `ClientSession.RightReports`
  says exactly when the bytes written are those of the request.
- The overflow test for pointer indices misses some wraps: `PointerParser.WrapMissed` is such a name, and
  `PointerParser.IndexExact` says exactly for which names the index is their value, and `PointerParser.IndexReduced` what it
  is for all others.
- `HttpRequest::Dump` prints strings up to their first NUL but counts all of their bytes, and counts no byte for the
  terminator that each `sprintf` writes behind its text. `HttpRequest.Request.Dump` says exactly when the buffer is filled,
  and exactly when every byte written lies in it: only if there is a body, or some string holds a NUL. Every plain GET
  writes one byte behind its buffer (`HttpRequest.PlainGetOverruns`); a NUL leaves the end of the buffer unwritten
  (`HttpRequest.NulLeavesGap`).
- The memory pool adds sizes in machine words. `PoolAllocator.MemoryPoolAllocator.Malloc` and `Realloc` say exactly when a
  wrapped sum makes a pointer lead nowhere; `PoolAllocator.WrapServesTwice` is a run in which one block is given away twice.
- Cutting the line of a lone tag can leave the text behind it with crossed bounds, and a tag is then rendered as text:
  `MustacheRoundTrip.BoundsCross` is such a template, and `MustacheStandalone.TrimmedInOrder` says exactly when it happens.
- The template compiler accepts templates that leave a block open, and never sets the block's position.
  `MustacheParser.Template.Parse` says exactly what is accepted, `MustacheParser.NestedLeavesNone` and
  `MustacheParser.LeftOpenCounts` when a block is left open, `MustacheRoundTrip.SmallestOpenBlock` is such a template.
  Rendering one can go on for ever: `MustacheOpenBlock.SkippedOpenBlock` says when it does, and
  `MustacheOpenBlock.EndlessTemplate` is such a template.
- Crow's receiver keeps a header that has no value only if it is the last one: `HttpReceiver.AnyRequestTold` says what is kept.
- The table of chunk size digits is written out for ASCII only: every byte beyond is read as a zero
  (`HttpVariants.SizeDigits`).
- The route trie gives one index to all redirections to a url with a slash, so nothing is said of their parameters.

## Model

| member | source | states |
|---|---|---|
| JsonEquivalence.ParsersAgree | 3rdparty/rapidjson/reader.h:2175-2208 | For every text and flags both parsers send the same events and end with the same verdict, code and offset; for a root that opens no value only the code differs |
| JsonEquivalence.RunIsResume | 3rdparty/rapidjson/reader.h:1992-2165 | From any reachable configuration the stack machine does what recursive descent would do after returning through every open bracket |
| JsonMachine.StackAlwaysFits | 3rdparty/rapidjson/reader.h:1995-2145 | In a reachable configuration every pop finds the word pushed for it, and a closing bracket closes only its own kind though kinds are not stored |
| JsonMachine.TransitKeepsReachable | 3rdparty/rapidjson/reader.h:1995-2145 | Every transition that does not end the parse leads to a reachable configuration |
| JsonReader.Reader.Parse | 3rdparty/rapidjson/reader.h:556-588 | The recursive parser's events, cursor and error are those of the grammar |
| JsonReader.Reader.IterativeParse | 3rdparty/rapidjson/reader.h:2175-2208 | The loop of the table-driven parser computes the run of the machine, and its assertions on the stack hold |
| JsonTexts.AcceptedExactlyWritten | 3rdparty/rapidjson/reader.h:556-588 | A text is accepted exactly when it opens with a written value and nothing but blanks, and comments under their flag, around it: the grammar of RFC 8259, with what each flag adds to it |
| JsonTexts.WrittenIsRead | 3rdparty/rapidjson/reader.h:556-588 | Whatever blanks stand around its tokens and however its strings and numbers are spelled, a written text is read to its end and sends the events of the tree that was written |
| JsonTexts.AcceptedIsWritten | 3rdparty/rapidjson/reader.h:556-588 | Every text that is accepted was written in that grammar, as far as it was read |
| JsonWritten.DocReads | 3rdparty/rapidjson/reader.h:1736-1746 | Wherever a written value stands, it is read as a whole and announced as its tree |
| JsonSound.ValueFound | 3rdparty/rapidjson/reader.h:1736-1746 | Whatever was read as a value is one that may be written, read to its end |
| JsonTexts.BlankBytes | 3rdparty/rapidjson/reader.h:262-269 | The blanks are space, tab, line feed and carriage return, and no other byte |
| JsonGaps.SkippedIsGap | 3rdparty/rapidjson/reader.h:709-735 | What is passed over between tokens is made of blanks and, under their flag, comments closed by their own ends, but for a last line |
| JsonStrings.CharsRead | 3rdparty/rapidjson/reader.h:988-1054 | A string is read as the bytes of its characters, each written as it is, by a letter, by four digits in either case, or by a pair of surrogates |
| JsonStrings.CodePointsEncoded | 3rdparty/rapidjson/reader.h:1016-1031 | Code points written in digits are read as their UTF-8 bytes |
| JsonSound.CharsFound | 3rdparty/rapidjson/reader.h:988-1054 | What was read as a string is made of such characters |
| JsonNumerals.NumeralReads | 3rdparty/rapidjson/reader.h:1454-1732 | A number literal, with or without sign, fraction and exponent, is read as a whole, and announced as what it is unless it is too big |
| JsonSound.NumberFound | 3rdparty/rapidjson/reader.h:1454-1732 | What was read as a number is such a literal, and the text does not go on with it |
| JsonScale.ScaleIs | 3rdparty/rapidjson/reader.h:1569-1613 | How many digits of a fraction count against the largest exponent: up to eighteen behind a whole part, seventeen behind leading zeros |
| JsonRefusals.StringRefused | 3rdparty/rapidjson/reader.h:988-1054 | A string is refused at its first character that is none, with the error for what stands there |
| JsonRefusals.SeparatorMissing | 3rdparty/rapidjson/reader.h:829-850 | Behind the elements of an array anything but a comma or the closing bracket is refused where it stands |
| JsonRefusals.NameMissing | 3rdparty/rapidjson/reader.h:753-757 | Where a member is to come, anything but the quote of a name is refused |
| JsonRefusals.ColonMissing | 3rdparty/rapidjson/reader.h:759-764 | Behind the name of a member anything but a colon is refused |
| JsonRefusals.MemberSeparatorMissing | 3rdparty/rapidjson/reader.h:769-792 | Behind the members of an object anything but a comma or the closing bracket is refused |
| JsonRefusals.WordRefused | 3rdparty/rapidjson/reader.h:854-891 | A misspelled word is refused at its first wrong letter |
| JsonRefusals.CommentUnclosed | 3rdparty/rapidjson/reader.h:709-735 | A comment that is never closed is refused at the end of the text |
| JsonRefusals.SlashAlone | 3rdparty/rapidjson/reader.h:709-735 | A slash that opens no comment is refused behind it |
| JsonRefusals.TooBig | 3rdparty/rapidjson/reader.h:1648-1728 | A literal too big for a double is refused where it begins |
| JsonRefusals.FractionMissing | 3rdparty/rapidjson/reader.h:1569-1576 | A point without a digit behind it is refused there |
| JsonRefusals.ExponentMissing | 3rdparty/rapidjson/reader.h:1618-1666 | An exponent without a digit behind its letter and its sign is refused there |
| JsonRefusals.EmptyText | 3rdparty/rapidjson/reader.h:565-571 | A text of nothing but blanks and comments is empty, at its end |
| JsonRefusals.NotSingular | 3rdparty/rapidjson/reader.h:576-583 | Anything but blanks and comments behind the root value is refused where it stands |
| JsonReader.Reader.ParseObject | 3rdparty/rapidjson/reader.h:736-803 | Members, separators, trailing commas and error offsets of an object are those of the grammar |
| JsonReader.Reader.ParseArray | 3rdparty/rapidjson/reader.h:805-851 | Elements, separators, trailing commas and error offsets of an array are those of the grammar |
| JsonReader.Reader.ParseString | 3rdparty/rapidjson/reader.h:988-1054 | The decoded string, or the first error and its offset, escapes and surrogate pairs included |
| JsonReader.Reader.ParseHex4 | 3rdparty/rapidjson/reader.h:904-922 | Four hexadecimal digits, or the error at the escape |
| JsonReader.Reader.SkipWhitespaceAndComments | 3rdparty/rapidjson/reader.h:709-735 | Blanks and, under their flag, comments are skipped; an unfinished comment is an error |
| JsonNumber.ParseNumber | 3rdparty/rapidjson/reader.h:1454-1732 | The number scanner over 32-bit and 64-bit accumulators, which never overflow, gives the event of the literal |
| JsonNumber.AccumulateNarrow | 3rdparty/rapidjson/reader.h:1479-1503 | The 32-bit loop stops exactly before the digit that would leave the type of the sign |
| JsonNumber.AccumulateWide | 3rdparty/rapidjson/reader.h:1534-1557 | The 64-bit loop stops exactly before the digit that would leave the type of the sign |
| JsonIntegers.IntegerLiteral | 3rdparty/rapidjson/reader.h:1470-1728 | An integer literal of any length arrives with its exact value in the narrowest type of its sign exactly when it lies in [-2^63, 2^64 - 1], and as a double beyond |
| JsonBalanced.AcceptedTextAnnouncesOneTree | 3rdparty/rapidjson/reader.h:556-588 | The events of an accepted text are balanced, with correct counts: those of one tree |
| JsonDocument.BuildsOneValue | 3rdparty/rapidjson/document.h:2437-2477 | The events of a tree leave exactly one more value on the handler's stack, the one the tree announces |
| JsonDocument.AcceptReplays | 3rdparty/rapidjson/document.h:1867-1905 | Replaying a built value sends the events it was built from, integers compared by value |
| JsonDocument.FlagsOfTell | 3rdparty/rapidjson/document.h:712-750 | Whatever type a number was announced in, each of its four flags is set exactly when that type holds it |
| JsonDocument.AnnouncedNarrowest | 3rdparty/rapidjson/document.h:1897-1903 | A replayed number is announced in the first of the four types that holds it |
| JsonDocument.BuildsTheTree | 3rdparty/rapidjson/document.h:2437-2477 | The events of a tree leave its value, which replays them and in which every number tells its types |
| JsonDocument.GenericDocument.ParseStream | 3rdparty/rapidjson/document.h:2258-2272 | After an accepted text the root replays the text's events, and every number in it has the flags of exactly the types that hold it; after an error nothing changes |
| JsonDocument.GenericDocument.EndObject | 3rdparty/rapidjson/document.h:2465-2469 | The last values on the stack become the members of the object below them |
| JsonDocument.GenericDocument.EndArray | 3rdparty/rapidjson/document.h:2473-2477 | The last values on the stack become the elements of the array below them |
| JsonWriter.WritesTree | 3rdparty/rapidjson/writer.h:472-490 | Sent the events of a tree, either writer appends the tree's text and leaves its level stack as it was but for one value more |
| JsonLayout.LaidOut | 3rdparty/rapidjson/prettywriter.h:95-255 | Every tree is printed as its layout: one line to a member or an element, indented by its depth, or nothing between the tokens |
| JsonLayout.EscapedIs | 3rdparty/rapidjson/writer.h:378-395 | Quotes and backslashes are escaped, control characters by their letter or four digits, and nothing else |
| JsonRoundTrip.TreeReads | 3rdparty/rapidjson/reader.h:1736-1795 | Wherever the text of a tree stands, in either layout, the reader takes exactly it and sends the tree's events |
| JsonEquivalence.CodesDiffer | 3rdparty/rapidjson/reader.h:2175-2208 | A text on which the two parsers report different codes |
| JsonRoundTrip.PrintedTextReadsBack | 3rdparty/rapidjson/prettywriter.h:208-255 | For every tree without doubles whose strings the target can hold, every indent and array format, the printed text is accepted to its end and sends the same events, integers compared by value |
| JsonTarget.AsciiTreeReadsBack | 3rdparty/rapidjson/writer.h:376-452 | A whole tree printed for an ASCII target: nothing beyond ASCII is printed, and the reader sends the tree's events again |
| JsonEscape.EscapedReads | 3rdparty/rapidjson/writer.h:376-452 | Each byte of a string, escaped as the table says, is read back as that byte |
| JsonRoundTrip.NumberReads | 3rdparty/rapidjson/writer.h:312-346 | A printed integer is read back in the narrowest type of its sign |
| JsonPrinter.Writer.WriteString | 3rdparty/rapidjson/writer.h:376-452 | The output grows by the quoted and escaped string, for an ASCII target exactly when it has whole characters only |
| JsonPrinter.Writer.Accept | 3rdparty/rapidjson/document.h:1867-1905 | Visiting a value drives the writer through exactly the value's events |
| JsonPrinter.PrintedDocument | 3rdparty/rapidjson/writer.h:181-252 | The text a writer makes of a built value reads back to the events the value was built from |
| JsonPrinter.PrintValue | 3rdparty/rapidjson/prettywriter.h:95-180 | Printing a built value gives a text that the reader turns into the same events again |
| Utf8Codec.EncodedIsChar | 3rdparty/rapidjson/encodings.h:101-122 | Encoding a scalar value gives one character of section 4 of RFC 3629, of that value |
| Utf8Codec.CharIsEncoded | 3rdparty/rapidjson/encodings.h:101-122 | Every character of the standard is the encoding of its value, which is a scalar value: no surrogate, no overlong form, nothing beyond the range |
| Utf8Codec.MasksAcceptChars | 3rdparty/rapidjson/encodings.h:201-220 | The class table and the masks accept exactly the characters of the standard, and the shifts compute their values |
| Utf8Codec.ByteStream.Decode | 3rdparty/rapidjson/encodings.h:145-178 | Decoding succeeds exactly on a character of the standard, gives its value and takes exactly its bytes |
| Utf8Codec.ByteStream.Validate | 3rdparty/rapidjson/encodings.h:181-199 | Validation succeeds exactly on a character of the standard and copies its bytes |
| Utf8Codec.EncodedIsText | 3rdparty/rapidjson/encodings.h:101-178 | Encoded scalar values decode to the same values |
| Utf8Codec.TextIsEncoded | 3rdparty/rapidjson/encodings.h:101-178 | A valid text is the encoding of the values it decodes to |
| Utf8Codec.DecodeAll | 3rdparty/rapidjson/encodings.h:145-178 | Repeated decoding succeeds exactly on texts of whole characters and gives their values |
| Utf8Codec.ValidateAll | 3rdparty/rapidjson/encodings.h:181-199 | Repeated validation succeeds exactly on texts of whole characters, whose copy is the text |
| JsonAscii.UnicodeEscapeReads | 3rdparty/rapidjson/reader.h:1016-1031 | The escape of a scalar value, a surrogate pair beyond 16 bits, is read back as its UTF-8 bytes |
| JsonAscii.AsciiReads | 3rdparty/rapidjson/writer.h:399-429 | A string printed for an ASCII target is read back byte for byte |
| JsonAscii.AsciiIsAscii | 3rdparty/rapidjson/writer.h:399-429 | Nothing beyond ASCII is printed |
| JsonAscii.WriteString | 3rdparty/rapidjson/writer.h:376-452 | Writing succeeds exactly on strings of whole characters; its output is ASCII and scans back to the string |
| PointerText.StringifiedReads | 3rdparty/rapidjson/pointer.h:862-1033 | What is printed, as a string or as a URI fragment, is parsed to the same token names |
| PointerText.FragmentsExist | 3rdparty/rapidjson/pointer.h:1001-1033 | The URI fragment form exists exactly when every name is a text of whole characters |
| PointerText.StringFormExists | 3rdparty/rapidjson/pointer.h:1001-1033 | The string form exists for all names |
| PointerText.ParsedPrints | 3rdparty/rapidjson/pointer.h:862-1033 | Every valid string form is printed again as it was |
| PointerForms.StringForm | 3rdparty/rapidjson/pointer.h:1001-1033 | The string form: a slash before each name, with tildes and slashes of names escaped |
| PointerForms.FragmentForm | 3rdparty/rapidjson/pointer.h:1001-1033 | The fragment form is a number sign and nothing that a URI fragment must escape |
| PointerForms.EscapedBytes | 3rdparty/rapidjson/pointer.h:850-853 | The bytes that need no escape in a fragment |
| PointerParser.Pointer.Parse | 3rdparty/rapidjson/pointer.h:862-992 | The names in the buffer and their indices are those of the text, or the error is the first and at its offset |
| PointerParser.Pointer.ParseName | 3rdparty/rapidjson/pointer.h:895-951 | A name is decoded into the buffer while the write cursor stays behind the read cursor |
| PointerParser.PercentDecode | 3rdparty/rapidjson/pointer.h:1035-1087 | A percent-encoded character is taken exactly when its triplets form one character of the standard |
| PointerParser.ParseIndex | 3rdparty/rapidjson/pointer.h:952-977 | The 32-bit accumulation with its overflow test |
| PointerParser.IndexExact | 3rdparty/rapidjson/pointer.h:964-977 | A numeric name's index is its value exactly when the value has 32 bits |
| PointerParser.WrapMissed | 3rdparty/rapidjson/pointer.h:966-974 | A name of eleven digits whose index is neither its value nor the invalid index |
| PointerParser.PrintNames | 3rdparty/rapidjson/pointer.h:1001-1033 | The printer's loops compute the text of the tokens, and fail exactly when it does not exist |
| PointerParser.IndexReduced | 3rdparty/rapidjson/pointer.h:964-977 | The index of any number: its value reduced to 32 bits, or the invalid index exactly where some step of the accumulation decreases |
| PointerTree.ParsedAreSensible | 3rdparty/rapidjson/pointer.h:952-977 | The tokens of parsed names meet what the tree operations ask of tokens |
| PointerTree.CreateAgainstGet | 3rdparty/rapidjson/pointer.h:461-507 | A created value is reported as existing exactly when lookup resolves, and then the tree is unchanged and the value is the one found |
| PointerTree.CreateThenGet | 3rdparty/rapidjson/pointer.h:461-507 | After a creation lookup resolves to the created value, a null if it is new, exactly unless a dash was applied to an array |
| PointerTree.FoundAgain | 3rdparty/rapidjson/pointer.h:539-567 | After an assignment to the created value lookup finds exactly that place and value, unless a dash was applied to an array |
| PointerTree.SetThenGet | 3rdparty/rapidjson/pointer.h:670-677 | What is set is what lookup then finds |
| PointerFrame.OthersStay | 3rdparty/rapidjson/pointer.h:461-507 | Setting a value leaves alone whatever other tokens lead to: they lead there still, and to the same value |
| PointerFrame.IndexPads | 3rdparty/rapidjson/pointer.h:481-489 | An index finds its element, or adds nulls up to it; the elements before stay |
| PointerFrame.DashAppends | 3rdparty/rapidjson/pointer.h:466-470 | A dash puts a null behind the last element of an array |
| PointerFrame.NameAdds | 3rdparty/rapidjson/pointer.h:490-499 | A name finds its member in an object, or adds it as a null behind the last |
| PointerFrame.OthersGiveWay | 3rdparty/rapidjson/pointer.h:471-479 | Any other value gives way: to an array of nulls for an index, to an object of one null for a name |
| PointerFrame.ArraysGiveWay | 3rdparty/rapidjson/pointer.h:472-475 | An array gives way to an object for a name that is neither an index nor a dash |
| PointerTree.GetValue | 3rdparty/rapidjson/pointer.h:539-567 | The loop finds the value of the tokens' path, or names the first token that leads nowhere |
| PointerTree.CreateValue | 3rdparty/rapidjson/pointer.h:461-507 | The loop down the tree makes the tree, the place and the existence flag of the creation |
| PointerTree.MakeChild | 3rdparty/rapidjson/pointer.h:465-499 | One token reshapes a value, pads an array with nulls, or appends a member, as it must |
| RoutePattern.LiteralsMatch | 3rdparty/crow/routing.h:752-761 | A run of literal bytes matches exactly when it stands in the url, and captures nothing |
| RouteWritten.WrittenReads | 3rdparty/crow/routing.h:776-827 | A pattern of literal bytes and tag words is read as exactly these bytes and the parameters that the words name |
| RouteWritten.TokensAreWritten | 3rdparty/crow/routing.h:776-827 | Every pattern without an error is written in this way |
| RouteWritten.ParameterTakes | 3rdparty/crow/routing.h:672-750 | A parameter takes what the conversion of its kind takes, from a first byte with which the kind may begin |
| RouteWritten.LiteralTakes | 3rdparty/crow/routing.h:752-761 | Nothing is taken at the end of the url; a literal takes its own byte and captures nothing |
| RouteWritten.SignedNumbers | 3rdparty/crow/routing.h:672-705 | A signed number is captured by the pattern of an integer and by none of an unsigned one |
| RouteTrie.CompressedSame | 3rdparty/crow/routing.h:611-624 | Path compression of a node whose children are all simple changes no route below any node |
| RouteTrie.MergedOk | 3rdparty/crow/routing.h:611-624 | The joined keys are prefix-free again and no route is lost to another with the same key |
| RouteIndex.Trie.OptimizeNode | 3rdparty/crow/routing.h:588-631 | Compression ends, keeps the arena well formed, and leaves every route below every node as it was |
| RouteIndex.Trie.Find | 3rdparty/crow/routing.h:646-767 | The least rule whose stored pattern matches the rest of the url, with its captures, in whatever order children are visited; the parameter stack is restored |
| RouteSearch.AllTried | 3rdparty/crow/routing.h:646-767 | Trying every branch of a node is trying every pattern stored below it |
| RouteSearch.ParamBranch | 3rdparty/crow/routing.h:672-750 | A parameter branch answers for exactly the patterns that begin with its parameter |
| RouteSearch.KeyBranch | 3rdparty/crow/routing.h:752-761 | A key branch answers for exactly the patterns that begin with its key |
| RouteIndex.Trie.Add | 3rdparty/crow/routing.h:769-829 | Adding fails exactly when the pattern has a rule already, and otherwise stores exactly one route more |
| RouteBuild.StoresByLabel | 3rdparty/crow/routing.h:769-829 | In an uncompressed trie the routes are the rules of its nodes under their paths |
| RouteRouter.SlashIsAToken | 3rdparty/crow/routing.h:919-926 | A directory pattern without its slash is a pattern, one literal token shorter |
| RouteRouter.PerMethod.AddRule | 3rdparty/crow/routing.h:917-941 | A rule is refused exactly when its path, or the path redirected to it, belongs to a rule already |
| RouteRouter.PerMethod.Validate | 3rdparty/crow/routing.h:639-644 | Compression keeps everything the rules ask for; it is refused unless the root is a plain fork |
| RouteRouter.PerMethod.Handle | 3rdparty/crow/routing.h:1025-1063 | Before and after compression: no rule matches; or a redirection matches, and its location is the url with a slash behind it, behind scheme and host if there is a host; or the least matching rule answers with its own pattern's captures. The index is never out of range |
| HttpStream.FeedAll | 3rdparty/crow/http_parser_merged.h:831-2231 | However a stream is cut into buffers, the fields and the joined callbacks are those of one run over the whole stream; after an error at most the open text is missing |
| HttpStream.FeedTwoWays | 3rdparty/crow/http_parser_merged.h:831-2231 | Two cuts of one stream end with the same fields and, without an error, the same callbacks |
| HttpStream.Feed | 3rdparty/crow/parser.h:97-115 | One read: a buffer, the end of the stream, or nothing once in error; true when all of it was taken |
| HttpParser.Parser.Execute | 3rdparty/crow/http_parser_merged.h:831-2231 | With marks into the buffer and bodies read in bulk, one buffer does what reading byte by byte does |
| HttpParser.Parser.ExecuteEnd | 3rdparty/crow/http_parser_merged.h:903-926 | The end of the stream is in order only between messages |
| HttpParser.Parser.ReadBody | 3rdparty/crow/http_parser_merged.h:1989-2021 | As much of a body as the buffer holds is read at once, with the effect of reading it byte by byte |
| HttpParser.Parser.Flush | 3rdparty/crow/http_parser_merged.h:401-431 | A data callback reports the marked text and changes nothing of what has been shown |
| HttpInvariant.StepKeepsSound | 3rdparty/crow/http_parser_merged.h:1596-2199 | In every reachable state the parser's assertions hold: matchers inside their literals, chunk states only in chunked messages, lengths below the unset value |
| HttpInvariant.RunStaysHealthy | 3rdparty/crow/http_parser_merged.h:831-2231 | Every text leaves the parser in a reachable state, in the middle of the text it reported last |
| HttpMachine.RunConcat | 3rdparty/crow/http_parser_merged.h:967-2202 | The byte by byte run over two texts is the run over their concatenation |
| HttpUrl.UrlAccepted | 3rdparty/crow/http_parser_merged.h:640-829 | The url automaton accepts exactly the targets of a grammar: a path, or scheme and server, with an optional query and fragment |
| HttpKeepAlive.RequestKeepsAlive | 3rdparty/crow/http_parser_merged.h:2267-2285 | After a request of version 1.1 or later the parser is at the next one exactly unless a connection header asks to close, after an earlier one at the end of the connection exactly unless one asks to keep alive |
| HttpKeepAlive.RunHeaderAsks | 3rdparty/crow/http_parser_merged.h:1596-1922 | Once a header line is over, the connection flags have what it asks for, in any case of its letters |
| HttpRefusals.MethodsExactly | 3rdparty/crow/http_parser_merged.h:1225-1349 | A request line begins with one of twenty-seven words, taken for the method of its name, and with no other |
| HttpRefusals.RefusedExactly | 3rdparty/crow/http_parser_merged.h:967-2202 | Outside the method and the url, a byte is refused exactly when a table over the states says so, with the error it says |
| HttpRefusals.HeadLimit | 3rdparty/crow/http_parser_merged.h:959-977 | Up to eighty times 1024 bytes of a head are read |
| HttpRefusals.TooLongAHead | 3rdparty/crow/http_parser_merged.h:959-977 | No more bytes of a head are read, whatever they are |
| HttpVariants.FoldedValue | 3rdparty/crow/http_parser_merged.h:1898-1908 | A line that begins with a blank goes on with the value before it |
| HttpVariants.EmptyValueRuns | 3rdparty/crow/http_parser_merged.h:1924-1942 | An empty value is reported as such when the next line begins |
| HttpVariants.BareFeedAfterVersion | 3rdparty/crow/http_parser_merged.h:1504-1544 | A bare line feed ends the request line as well |
| HttpVariants.NameBytes | 3rdparty/crow/http_parser_merged.h:850-882 | The bytes of a header name, compared in lower case |
| HttpVariants.SizeDigits | 3rdparty/crow/http_parser_merged.h:885-894 | The digits of a chunk size; a byte beyond ASCII is read as a zero |
| HttpVariants.UpgradeLeaves | 3rdparty/crow/http_parser_merged.h:1945-2005 | With an upgrade, or the method CONNECT, the message ends with its headers and the parser leaves |
| HttpLog.RunBody | 3rdparty/crow/http_parser_merged.h:1989-2021 | Body bytes read one by one deliver their concatenation, and the last of an identity body completes the message |
| HttpDelivery.ChunkedMessage | 3rdparty/crow/http_parser_merged.h:2036-2192 | Whatever the chunks, their extensions, hexadecimal sizes and trailer, the body is the concatenation of the payloads, the trailer is reported and the message completes once |
| HttpDelivery.FeedChunked | 3rdparty/crow/http_parser_merged.h:2036-2192 | However a chunked body is cut into buffers, the callbacks join to its payloads, its trailer and one completion |
| HttpChunked.RunChunkedRequest | 3rdparty/crow/http_parser_merged.h:967-2202 | A chunked request from its request line to its last chunk, the coding announced in any case among any other headers: method, url and headers are reported, the body is the concatenation of the payloads, the message completes once |
| HttpChunked.FeedChunkedRequest | 3rdparty/crow/http_parser_merged.h:831-2231 | However a chunked request is cut into buffers, its callbacks are those |
| HttpChunked.DeliverChunked | 3rdparty/crow/parser.h:13-115 | A chunked request without a trailer, cut in any way, parsed and received: the receiver ends with its url, its headers and its payloads as the body |
| HttpDelivery.FeedIdentity | 3rdparty/crow/http_parser_merged.h:1989-2034 | However a body of announced length is cut into buffers, its bytes are delivered and the message completes once |
| HttpBodies.IdentityBody | 3rdparty/crow/http_parser_merged.h:1989-2034 | A body delivers exactly as many bytes as were announced, then completes the message |
| HttpNames.NamesRecognised | 3rdparty/crow/http_parser_merged.h:1510-1650 | The matcher recognises the header names that matter in any case, and takes no other name for one of them |
| HttpNames.GuessGoesOn | 3rdparty/crow/http_parser_merged.h:1262-1338 | Letter by letter, the guessed method is right or is replaced by the right guess |
| HttpMessage.ToldJoined | 3rdparty/crow/parser.h:13-88 | The message assembled does not depend on how texts were cut into callbacks |
| HttpMessage.ToldRequest | 3rdparty/crow/parser.h:13-88 | From the callbacks of a request its url, its headers with non-empty values and its body are put together |
| HttpReceiver.AnyRequestTold | 3rdparty/crow/parser.h:13-88 | From the callbacks of any request: its url up to the query, its body, and of its headers those that have a value, and the last one |
| HttpMessage.Receiver.CallAll | 3rdparty/crow/parser.h:13-88 | The callbacks, piece by piece, leave what the joined log tells |
| HttpRequest.Request.Dump | src/utils/http_request.cc:4-20 | The printed request lies at the start of a buffer of the calculated size, and fills it exactly when no string holds a NUL; every byte written, terminators included, lies in the buffer exactly when there is a body or some string holds a NUL |
| HttpRequest.PlainGetOverruns | src/utils/http_request.cc:4-20 | A plain GET whose last terminator is written behind its buffer |
| HttpRequest.NulLeavesGap | src/utils/http_request.cc:4-20 | A request whose buffer is longer than what is printed |
| HttpRequest.Request.CalcRequestSize | src/utils/http_request.cc:22-35 | The size does not depend on the order in which headers are visited |
| HttpRoundTrip.RunRequest | 3rdparty/crow/http_parser_merged.h:831-2231 | A printed request whose url the grammar has gives back its method, version, url, headers and body |
| HttpRoundTrip.RunHeader | 3rdparty/crow/http_parser_merged.h:1462-1842 | A header line reports its name and value, and a length is noted |
| HttpRoundTrip.Deliver | 3rdparty/crow/parser.h:97-115 | The printed request, fed in any buffers, makes the callbacks of its method, url, headers and body |
| HttpDelivery.DeliverRequest | 3rdparty/crow/parser.h:13-115 | A request object, printed, cut in any way, parsed and received: the receiver ends with its url, its headers and its body, the parser with its method |
| MustacheScanner.ScanTiles | 3rdparty/crow/mustache.h:315-444 | Tags and the text between them follow each other without a gap to the end of the text or the first error; each tag begins with the delimiter in force, which no text before it holds |
| MustacheScanner.ReadTagAt | 3rdparty/crow/mustache.h:326-443 | A tag's kind, name without blanks at its ends and end, the delimiters behind it, or its error |
| MustacheTags.BlanksAroundName | 3rdparty/crow/mustache.h:332-443 | Blanks around the name of a tag do not belong to it, whatever its sigil |
| MustacheTags.TripleReads | 3rdparty/crow/mustache.h:375-386 | A name in three braces is shown as it is; the tag ends behind the third |
| MustacheTags.ChangeReads | 3rdparty/crow/mustache.h:393-434 | A change of delimiters takes the word before the blanks for the opening one and the word behind them for the closing one |
| MustacheTags.Sigils | 3rdparty/crow/mustache.h:340-392 | The five bytes that make a tag something else than a value, and what they make it |
| MustachePrinted.WrittenReads | 3rdparty/crow/mustache.h:307-445 | A template written from texts and tags is scanned back to exactly these tags and texts, for all texts and names that hold no delimiter too early |
| MustacheRoundTrip.SameTree | 3rdparty/crow/mustache.h:332-385 | No two trees of sections have the same tags |
| MustacheRoundTrip.WrittenTreeCompiles | 3rdparty/crow/mustache.h:307-505 | A template written from a tree of sections is compiled without an error, and to no other tree |
| MustacheRoundTrip.BoundsCross | 3rdparty/crow/mustache.h:476-503 | A template of two tags whose line end between them is cut, so that the second tag is taken for text |
| MustacheRoundTrip.BoundsInOrder | 3rdparty/crow/mustache.h:447-503 | Where no opening delimiter in force begins with a line feed, every text keeps its bounds in order |
| MustacheRoundTrip.OpenBlockAccepted | 3rdparty/crow/mustache.h:335-375 | A template whose only tag begins a block is accepted, and the position of the block is never set |
| MustacheRoundTrip.SmallestOpenBlock | 3rdparty/crow/mustache.h:307-445 | A text that is accepted though it is not well nested |
| MustacheWritten.RenderWritten | 3rdparty/crow/mustache.h:55-505 | A template written from texts and a tree, compiled and rendered: what comes out is what the tree means, with the texts between its tags but for the lines of lone tags |
| MustacheMeaning.NothingCut | 3rdparty/crow/mustache.h:447-503 | Without lone tags all texts are kept as they are |
| MustacheOpenBlock.TurnIsInterpreted | 3rdparty/crow/mustache.h:146-269 | A turn of the renderer's loop is what the interpreter does first |
| MustacheOpenBlock.SkippedOpenBlock | 3rdparty/crow/mustache.h:146-269 | A template with a block left open that is skipped, behind at least one tag and only tags that show what they can: the renderer's loop is never over |
| MustacheOpenBlock.EndlessTemplate | 3rdparty/crow/mustache.h:146-269 | A text that is accepted and never rendered |
| MustacheStandalone.AloneOnItsLine | 3rdparty/crow/mustache.h:449-488 | A tag is found alone exactly when it shows no value and blanks reach from it to a line feed or the beginning of the text, and to a line end or the end of the text |
| MustacheStandalone.TrimmedInOrder | 3rdparty/crow/mustache.h:447-503 | What is left of a text keeps its bounds in order exactly when the line end behind a lone tag is not cut by the next tag |
| MustacheParser.Template.FindTags | 3rdparty/crow/mustache.h:307-444 | The tags of a text are found and linked: well exactly for texts without an error whose end tags all name the block that is open; the actions are then those of the levels of blocks left open, whose names follow from the tags alone |
| MustacheParser.Template.RemoveStandalones | 3rdparty/crow/mustache.h:446-503 | Each fragment loses the lines of the lone tags around it, judged by the original text alone, whatever the order |
| MustacheParser.Template.Parse | 3rdparty/crow/mustache.h:307-505 | Compiling ends well exactly for texts without an error whose end tags all name the block that is open; the actions are those of the levels of blocks left open, the fragments those between the tags without the lines of lone tags |
| MustacheParser.NestedLeavesNone | 3rdparty/crow/mustache.h:332-385 | What is accepted is well nested exactly when no block is left open |
| MustacheParser.LeftOpenCounts | 3rdparty/crow/mustache.h:332-385 | What is accepted leaves as many blocks open as it has more begin tags than end tags |
| MustacheParser.CompiledTree | 3rdparty/crow/mustache.h:332-385 | Without a block left open the actions are the flat form of the tree of the tags |
| MustacheParser.LeftOpenUnset | 3rdparty/crow/mustache.h:335-375 | The action of a block left open keeps the position it was made with, that of the first action |
| MustacheParser.TreeNests | 3rdparty/crow/mustache.h:332-385 | The tags of a tree are well nested, whatever follows them |
| MustacheTemplate.FlatNested | 3rdparty/crow/mustache.h:332-385 | Jump positions stay inside the block around them |
| MustacheRender.RunsAsMeant | 3rdparty/crow/mustache.h:146-269 | The flat interpreter with its jumps computes what the tree of sections means, and fails when that fails |
| MustacheRender.EachRunsAsMeant | 3rdparty/crow/mustache.h:233-241 | A section over a list is interpreted as its body for each element |
| MustacheLaws.SectionsByTruth | 3rdparty/crow/mustache.h:192-258 | An inverted section is rendered once exactly when its name means something false; any other when it means something true, once, or for each element of a list |
| MustacheLaws.FalseSectionsAddNothing | 3rdparty/crow/mustache.h:192-258 | A section whose name means something false adds nothing, nor does an inverted one whose name means something true |
| MustacheLaws.TagsShow | 3rdparty/crow/mustache.h:171-190 | Numbers are shown as they are, strings escaped so that they read back and hold no markup, or as they are; names without a meaning show nothing |
| MustacheLaws.FragmentIndents | 3rdparty/crow/mustache.h:270-283 | In an indented template every line of a fragment but its first is indented, unless it is empty at the end of the text |
| MustacheRenderer.Renderer.RenderInternal | 3rdparty/crow/mustache.h:146-269 | The interpreter's loop adds the meaning of the tree, restores the stack of contexts, and ends |
| MustacheRenderer.Renderer.RenderFragment | 3rdparty/crow/mustache.h:270-283 | A fragment is copied, its lines indented in an indented template |
| MustacheRenderer.Render | 3rdparty/crow/mustache.h:55-303 | A text compiles exactly when it has no error and its end tags all name the block that is open; if no block is left open, rendering gives the meaning of its tree of sections in the context, and fails exactly where that meaning does |
| MustacheContext.FindContext | 3rdparty/crow/mustache.h:67-126 | A name means the innermost context in which its dotted path leads somewhere |
| MustacheLaws.SearchInnermost | 3rdparty/crow/mustache.h:73-125 | The search finds what the innermost context has that has anything, and nothing only where none has |
| MustacheLaws.FollowsMembers | 3rdparty/crow/mustache.h:95-119 | A path leads from member to member through objects |
| MustacheLaws.DotIsTop | 3rdparty/crow/mustache.h:69-72 | The dot means the innermost context itself |
| MustacheContext.SplitName | 3rdparty/crow/mustache.h:90-104 | A name is cut at its dots |
| MustacheContext.NamesApart | 3rdparty/crow/mustache.h:90-104 | The parts hold no dot and make up the name again |
| MustacheContext.Escape | 3rdparty/crow/mustache.h:128-144 | The output grows by the escaped text |
| MustacheContext.UnescapeEscaped | 3rdparty/crow/mustache.h:128-144 | Escaping loses nothing: its entities read back to the text |
| MustacheContext.EscapedHasNoMarkup | 3rdparty/crow/mustache.h:128-144 | Escaped text holds no quote, angle bracket or slash |
| MustacheContext.AmpersandsBeginEntities | 3rdparty/crow/mustache.h:128-144 | Every ampersand of an escaped text begins one of the six entities |
| PoolAllocator.MemoryPoolAllocator.Malloc | 3rdparty/rapidjson/allocators.h:179-192 | The bytes asked for are at the pointer given exactly when no sum of machine words wraps; then the block begins at a multiple of eight, inside its chunk and apart from all others; a chunk added holds at least what chunks hold, and what was asked for; nothing is given for size zero or without memory |
| PoolAllocator.MemoryPoolAllocator.Realloc | 3rdparty/rapidjson/allocators.h:195-234 | Without a block, a new one; else the bytes asked for are at the pointer returned exactly when no sum wraps, and then the remembered bytes are there too; no byte of any earlier block changes |
| PoolAllocator.WrapServesTwice | 3rdparty/rapidjson/allocators.h:179-192 | A run of three requests in which the first block is given away again |
| PoolAllocator.MemoryPoolAllocator.Clear | 3rdparty/rapidjson/allocators.h:148-156 | All chunks are given back but the user's, which starts anew |
| PoolAllocator.MemoryPoolAllocator.Size | 3rdparty/rapidjson/allocators.h:171-176 | The bytes given away are no more than there are |
| ReadBuffer.ReadBufferAdapter.IncreaseCursor | src/utils/read_buffer_adapter.h:18-24 | The cursor moves, and stops at the end |
| ClientSession.RightReports | src/client/client_report.h:80-99 | A report is right exactly when its session ended on the end of the stream; its times fit into the whole; the bytes written are those of the request exactly when no write took more than was left |
| ClientSession.TooMuchWritten | src/utils/read_buffer_adapter.h:38-40 | A run in which fourteen bytes of a request of ten are written |
| ClientSession.CompleteKeepsSound | src/client/http_session.cc:21-87 | Every completion keeps times set once and in order, and the cursor with the bytes written |
| ClientHistory.RunIsTold | src/client/http_session.cc:8-87 | Every run is a history: dials, then writes until the request is out, then reads, then an end; its report has the sums of the bytes of its writes and of its reads, and the times of the completions they are named for; a secure session writes only after a second dial, its handshake |
| ClientHistory.TimesTold | src/client/client_report.h:68-90 | The times of a session that ended are those between its start, its last dial, its last write and its end, and they add up |
| ClientSession.HttpSession.Bench | src/client/http_session.cc:21-43 | Each state sets its times once and starts its operation; the last two hand in the report |
| ClientSession.HttpSession.OnWrite | src/client/http_session.cc:66-82 | A write moves the cursor, and after the last byte reading begins |
| ClientSession.HttpSession.OnRead | src/client/http_session.cc:45-64 | A read adds its bytes to those read and goes on; the end of the stream ends the session, an error fails it |
| ClientSession.HttpSession.OnHandshake | src/client/https_session.cc:20-29 | A secure session writes once its handshake is done, or fails |
| ClientScheduler.ClosedLoop | src/client/client_scheduler.h:19-45 | Over every interleaving the sessions spawned are those reported, each once, and those in flight; until the stop as many are in flight as there are clients; each report is the one that its own session's completions tell, as a history: the sums of the bytes written and read, times that add up, and right exactly when they ended on the end of the stream |
| ClientScheduler.NextBalanced | src/client/client_scheduler.h:19-45 | Every completion keeps the balance |
| ClientScheduler.NextExplained | src/client/client_scheduler.h:19-45 | Every completion moves one session by what completed, and every other session and every report stays explained by its own completions |
| ClientScheduler.Scheduler.OnCompletion | src/client/client_scheduler.h:19-29 | The session object that an operation completed for handles it; if it finished, its report is kept and the next session starts, unless stopped; no other session changes |

## Left out

- Doubles: a double is its literal text, and whether it overflows is a parameter of the reader; `strtod`, `dtoa` and full precision are not modelled.
- JSON flags for in-situ parsing, validating encodings, numbers as strings, NaN and infinities; handlers that return false; SIMD variants.
- Counts and sizes are unbounded where the code has `SizeType` or `size_t`; the bounds of integer literals, chunk sizes, content lengths and pointer indices are modelled.
- JsonPrinter.Writer.Accept: of a value with a string that an ASCII target cannot hold nothing is said; the string itself is refused.
- JsonDocument.GenericDocument.ParseStream: the reader's events are collected and then handled one by one, where the code handles each as it is parsed.
- Values of a JSON document are immutable trees; the pool memory behind them, moves and aliasing are not modelled.
- PointerTree.CreateValue: the walk edits a copy of the path and puts the tree together again, where the code edits through a pointer into the tree.
- PointerParser.PercentDecode: up to four triplets are read ahead, where the code reads each on demand; what a failed parse leaves in its buffer, which is then freed, is not modelled.
- Reads behind a text's terminator give further terminators.
- The route conversions `strtoll`, `strtoull` and `strtod` are functions of the rest of the url that take at least one byte when they succeed; patterns with a `<` that opens no known tag, which the code never finishes adding, are excluded.
- RouteRouter.PerMethod.AddRule: after a refused rule the code throws out of its set-up, so nothing is said of the router then.
- The HTTP parser's response mode, callbacks that fail, pausing, and `http_parser_parse_url`, which Crow does not call.
- HttpRequest.Request.Dump: what a terminator written behind the buffer overwrites is not modelled.
- HttpMessage.Receiver.CallAll: strings that were moved from are empty, as the standard library leaves them; url parameters are not modelled.
- MustacheParser.Template.Parse: templates with partials, which are loaded from files, are excluded; scan errors are told apart only as far as the model needs them, without their messages.
- MustacheParser.Template.Parse: the code takes the last open block at an end tag without asking whether there is one; tags with an end tag too many, before any that names another block, are excluded.
- MustacheRenderer.Render: stops behind the compiler when a block is left open; what rendering does then is modelled turn by turn, up to a section over a list, and only the endless case is decided.
- MustachePrinted.WrittenReads: templates are written with the delimiters in force at the beginning, an ampersand for values that are not escaped, and empty comments.
- PoolAllocator.MemoryPoolAllocator.Malloc: addresses are offsets in chunks whose start and header are aligned.
- PoolAllocator.MemoryPoolAllocator.Realloc: the copy to a pointer that a wrapped sum leads nowhere is not modelled.
- PoolAllocator.MemoryPoolAllocator.Size: the sum over all chunks is unbounded; what all chunks hold together stays below a word.
- ClientSession.HttpSession.Bench: the clock is read once for each completion, where the code reads it for each time it sets; the dealing time is therefore 0.
- Sockets, TLS, timers, threads and the web socket; the session's operations complete with values from outside.
- Crow's own JSON module and query strings, zbench's command line, logging and process control, and the file streams of RapidJSON.

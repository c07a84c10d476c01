# Verification models of the licence server's self-contained components

This project models four components of the repository in Dafny and proves what they are
for. Each one has a specification as functions over values, the source's own imperative
form (methods over arrays, lists of nodes and objects) proved against it, and theorems
about the specification that relate it to an independent description.

* **JSON** (`Json*.dfy`, `tools/gason.cpp`, `tools/gason.h`): the destructive parser with
  its 32-deep stack, in-place unescaping, rings of nodes, NaN boxing and zone allocator.
  `JsonMachine` is one round of the loop as a step function; `JsonHeap`, `JsonStack` and
  `JsonParser` are the parser over a mutable buffer and a heap of nodes, which `JsonPlaced`
  puts into the zones of `JsonAllocator`; `JsonWords` is the graph in the words of
  `JsonBoxing`. `JsonGrammar` is the accepted language as concrete syntax trees, proved
  exact in both directions by `JsonComplete` and `JsonSound`; `JsonRfc` states what this
  means for the documents of RFC 8259. `JsonOpen` is the grammar of unfinished documents,
  which are exactly the texts in which the cursor runs into the terminator or over it;
  `JsonErrors` says for every error code which texts get it, `JsonCompletion` which
  unfinished documents can still be finished, and `JsonPadding` and `JsonPastEnd` what
  trailing white space does.
* **HTTP** (`Http*.dfy`, `server/`): the request parser's 20-state machine (`HttpParser`),
  the grammar of request heads it decides, proved exact by `HttpLanguage` and `HttpSound`,
  the reply it reads back (`HttpReply`), and percent decoding, path rules and form
  parameters (`HttpForms`).
* **Templates** (`Template*.dfy`, `template/NLTemplate.cpp`): the tokenizer and its
  one-to-one correspondence between texts and token lists (`TemplateTokens`), blocks as
  values with the interpretation of a token stream that rendering agrees with
  (`TemplateTree`), blocks as heap objects with deep copies (`TemplateHeap`), and the
  recursive loader (`TemplateLoad`).
* **Blackjack** (`Blackjack*.dfy`, `cpprest/Table.cpp`, `cpprest/messagetypes.h`): hands and
  the shoe, the table's requests as functions (`BlackjackRules`), what every run of them
  keeps (`BlackjackRounds`), the chips, cards and turns each of them moves
  (`BlackjackMoves`), runs in which players come and go (`BlackjackSeats`), and the table
  as an object (`BlackjackTable`).

`Texts`, `Sequences` and `Options` hold what the components share.

## Conventions

* A `char` is one byte. A C string is the NUL-free string in front of its terminator, and
  `Texts.At` reads the terminator at its length; `Texts.CString` is what is read of a string
  that may hold a NUL.
* Floating-point numbers are exact reals; integers are unbounded except where the source's
  wrap-around decides a result (`JsonNumber.Value`, `HttpForms.AsByte`, `JsonBoxing`).
* `JsonMachine.Status` has one value the source has not: `PastEnd` marks the runs in which
  the cursor steps over the terminator. `JsonOpen.PastEndIffUnfinished` says exactly which
  texts those are.
* Where the source's comments and its code differ the code is modelled. The comment at
  `cpprest/Table.cpp:202-209` says that a round in which every player has a black jack is
  over after the deal; with the seats as they were the code never gets there
  (`BlackjackRounds.BetNeverFinishes`, `BlackjackRounds.BlackJackDoesNotFinish`), and only
  does when players leave in mid-round (`BlackjackSeats.BetAfterLeavingIff`).
* RFC 8259 and RFC 1945 define the formats. What the code does beyond or short of them is
  stated by theorems with the exact condition: `JsonRfc.DocumentParses`,
  `JsonRfc.MeaningIsRfcIff`, `JsonNumber.ValueIsExactIff`, `HttpForms.MalformedIsDecodedIff`,
  `HttpForms.PairIsCut`.
* Where the code is compared with a standard or a grammar, the tables and character classes
  of that side are written out again and do not refer to the code's own: `JsonString.RfcEscape`,
  `JsonNumber.Ten`, `HttpLanguage.TSPECIALS`, `TemplateTokens.IsName`, `BlackjackHand.Counted`.
* A decoded path may hold a NUL, and the file system is handed the part in front of it. What
  this does to the file opened and to the type announced for it is stated with the exact
  condition: `HttpForms.OpenedIsNoDirectoryIff`, `HttpForms.TypeIsOpenedIff`.

## Model

| member | source | states |
|---|---|---|
| `JsonNumber.String2Double` | tools/gason.cpp:73-117 | over the buffer, the loops return the value of exactly the literal that stands at the cursor, and the cursor ends behind it |
| `JsonNumber.ScanSpells` | tools/gason.cpp:73-116 | the characters consumed are the spelling of the literal found, no more and no fewer |
| `JsonNumber.ScanFinds` | tools/gason.cpp:73-116 | a literal followed by a delimiter is found whole, whatever stands behind it |
| `JsonNumber.PowerHalves` | tools/gason.cpp:107-110 | squaring the base while halving the exponent keeps power times base^exponent |
| `JsonNumber.UnwrappedIsExact` | tools/gason.cpp:73-117 | without the wrap-around the result is the number of all digits, negative behind a minus sign, times ten to the exponent and divided by ten to the number of decimals |
| `JsonNumber.ValueIsExactIff` | tools/gason.cpp:103-112 | the result is the decimal value of the literal exactly if the exponent is below 2^32 or all digits before it are zero |
| `JsonString.DecodeString` | tools/gason.cpp:174-239 | decoding a string over itself stores the decoded body and a terminator, leaves everything before the string and everything unread untouched, and fails at the position where the body stops being one |
| `JsonString.DecodePiece` | tools/gason.cpp:176-234 | one round writes the meaning of one character or escape, and the write index never passes the read index |
| `JsonString.ReadHex4` | tools/gason.cpp:201-210 | four hexadecimal digits give their code unit, otherwise the first other character is reported |
| `JsonString.WriteUnit` | tools/gason.cpp:211-220 | a code unit is stored as its one to three bytes and nothing else changes |
| `JsonString.UnitBytesDecode` | tools/gason.cpp:211-220 | section 3 of RFC 3629 read backwards recovers every code unit from its bytes, and no shorter form could hold it |
| `JsonString.BodySpelled` | tools/gason.cpp:176-234 | what is consumed is the spelling of the pieces found |
| `JsonString.ClosedFound` | tools/gason.cpp:176-239 | every spelled body followed by a quote and a delimiter is read to its meaning |
| `JsonString.PieceOkIff` | tools/gason.cpp:188-228 | the characters and escapes taken are those of section 7 of RFC 8259 without a raw DEL |
| `JsonString.PieceMeans` | tools/gason.cpp:190-221 | each of them is stored as what that section makes of it, and a code unit as section 3 of RFC 3629 writes it |
| `JsonString.DecodeIsRfcIff` | tools/gason.cpp:201-221 | a body is decoded to the string of section 7 of RFC 8259 exactly if it contains no surrogate escape |
| `Texts.CStringIsWholeIff` | tools/gason.h:49-52 | what is read back through the stored pointer is the whole string exactly if it has no NUL |
| `Texts.SpaceIff` | tools/gason.cpp:51-53 | white space is tab, line feed, vertical tab, form feed, carriage return and blank |
| `JsonChars.DelimIff` | tools/gason.cpp:55-57 | a token ends in front of a comma, a colon, a closing bracket, white space or the terminator, and nothing else |
| `JsonString.DeleteRefused` | tools/gason.cpp:226-228 | a body with a raw DEL in it is refused wherever the DEL stands |
| `JsonHeap.InsertAfter` | tools/gason.cpp:119-125 | the node becomes the tail of the ring, behind all nodes in it |
| `JsonHeap.ListToValue` | tools/gason.cpp:127-134 | the ring becomes a null-terminated list with the same nodes in the same order, holding the container's value |
| `JsonHeap.AppendNode` | tools/gason.cpp:321-331 | a new node extends the ring by one item or member, what the ring held is kept, and no key is written to a node that has no room for one |
| `JsonHeap.ReadsFrame` | tools/gason.cpp:174-239 | a node graph keeps its value whatever happens in the buffer behind the strings it points to |
| `JsonStack.ParseStack.Push` | tools/gason.cpp:274-289 | an opening bracket adds an empty ring above rings that are kept |
| `JsonStack.ParseStack.Accept` | tools/gason.cpp:314-331 | a finished value becomes the next item, the pending key or the value of the pending key; rings of different levels still share no node |
| `JsonStack.ParseStack.Close` | tools/gason.cpp:258-273 | a closing bracket yields the innermost container's value, apart from all rings left, or the error the source gives |
| `JsonParser.JsonParse` | tools/gason.cpp:136-334 | unless `malloc` fails when the zones are full, error code and `*endptr` are those of the step function; on success the node graph reads back, through the overwritten buffer, as its value, and its nodes lie in blocks of the allocator, each in one of its own and of its size, apart from all blocks handed out before |
| `JsonPlaced.NewNode` | tools/gason.cpp:321-331 | a node is put into a block of its size, 24 bytes for a member and 16 for an item, apart from the blocks of all other nodes, or nothing changes because `malloc` fails and the zones are full |
| `JsonPlaced.PlacedNode` | tools/gason.cpp:19-41 | in whatever state the zones are, the block a call returns keeps all nodes apart from one another and from the blocks of before |
| `JsonSound.ParseGives` | tools/gason.cpp:136-334 | a syntax tree of the accepted language at the front of a text is parsed to what it means, with `*endptr` just behind it |
| `JsonSound.ParseFinds` | tools/gason.cpp:136-334 | whenever parsing succeeds there is such a tree at the front of the text |
| `JsonSound.LanguageIsExact` | tools/gason.cpp:136-334 | parsing succeeds exactly on the texts that begin with white space and a tree of the lenient language nested at most 32 deep |
| `JsonComplete.RunValue` | tools/gason.cpp:306-331 | inside any open containers a spelled tree is consumed and its meaning delivered to the innermost one |
| `JsonRfc.DocumentParses` | tools/gason.cpp:136-334 | every RFC 8259 document is parsed to its tree and stopped behind exactly if it has no raw DEL and nests at most 32 deep, and is refused otherwise |
| `JsonNumber.WrappedExample` | tools/gason.cpp:103-112 | one with the exponent 2^32 is read as one |
| `JsonRfc.MeaningIsRfcIff` | tools/gason.cpp:103-112 | the value returned is the RFC 8259 value of the document exactly if it has no surrogate escape, no escape of code unit zero, and no exponent of 2^32 or more behind digits that are not all zero |
| `JsonRfc.StringIsRfcIff` | tools/gason.cpp:201-221 | a string read as a C string is the RFC 8259 string exactly if it has no surrogate escape and no escape of code unit zero |
| `JsonRfc.ChangedDocuments` | tools/gason.cpp:103-221 | three documents whose value comes back changed: a surrogate pair, an escape of code unit zero, an exponent that wraps |
| `JsonOpen.PastEndIffUnfinished` | tools/gason.cpp:146-151 | the cursor steps over the terminator exactly on the texts made of open containers nested at most 32 deep, each with finished items or members and perhaps a pending key, and white space behind them |
| `JsonOpen.BreakingBadIffUnfinished` | tools/gason.cpp:333 | it stops on the terminator without a result exactly on such texts without white space behind them |
| `JsonOpen.UnfinishedStalls` | tools/gason.cpp:136-334 | such containers are read to their end, and in front of the terminator `*endptr` is where the last token begins |
| `JsonOpen.FindHalt` | tools/gason.cpp:136-334 | every run comes behind open containers, with all commas and colons taken that can be, to a token that halts it or to the end of the text |
| `JsonErrors.ErrorIff` | tools/gason.cpp:152-319 | every error code is returned exactly on the texts that have, behind open containers and white space, a character that is wrong there for its reason: a bracket that closes nothing, one of the other kind, one too deep, a container or scalar where a key is due, a misplaced comma, colon or closing brace, a character that starts nothing, a token that spells nothing |
| `JsonErrors.ErrorReported` | tools/gason.cpp:152-319 | and `*endptr` is then that character, or behind it in a broken number or string |
| `JsonCompletion.CompletableIff` | tools/gason.cpp:314-319 | of the texts that are run over, something put behind makes a document exactly of those in which no container was opened where a key was due, and then a value for a pending key and the closing brackets do |
| `JsonCompletion.DoomedExample` | tools/gason.cpp:314-319 | an array opened where a key is due: the text is run over, although nothing can finish it |
| `JsonPastEnd.PaddingRunsOverIff` | tools/gason.cpp:146-151 | white space put behind a text makes the cursor step over the terminator exactly if the text alone stops on it and does not end in an unclosed string, which takes the white space with it |
| `JsonPastEnd.NoPaddingIsSafe` | tools/gason.cpp:146-151 | a text that does not end in white space is never left |
| `JsonPastEnd.BracketAndBlank` | tools/gason.cpp:300-301 | the smallest document that is left |
| `JsonBoxing.BoxUnboxes` | tools/gason.h:31-44 | tag and pointer come back from the word they are boxed in |
| `JsonBoxing.BoxWord` | tools/gason.h:6-34 | the words of the seven tags |
| `JsonBoxing.BoxIsInjective` | tools/gason.h:31-34 | different tags or pointers give different words |
| `JsonBoxing.NumbersAreDoubles` | tools/gason.h:28-40 | every number, infinity and negative NaN reads back as a double |
| `JsonBoxing.BoxesAreNans` | tools/gason.h:35-44 | the words that are no doubles are exactly the positive quiet NaNs with a payload, each the box of its tag and pointer |
| `JsonBoxing.AddressRoundTrip` | tools/gason.h:31-44 | every address of at most 47 bits fits under the payload mask and comes back from its bits |
| `JsonWords.ParsedUnboxes` | tools/gason.h:31-57 | in the graph of a parsed document every value that is no number comes back from its word, with its tag and the address of its string or first node, as long as buffer and zones lie where the source's assertion demands |
| `JsonWords.WordsDetermine` | tools/gason.h:31-57 | two values of a graph have the same word only if they are the same value |
| `JsonAllocator.AllocateKeeps` | tools/gason.cpp:19-41 | a call keeps zones aligned, within their capacity, tiled by their blocks and apart from one another |
| `JsonAllocator.AllocateAddsOne` | tools/gason.cpp:19-41 | a call adds the block it returns to the blocks handed out and takes none away |
| `JsonAllocator.NewZoneIs` | tools/gason.cpp:20-31 | a new zone takes 4096 bytes, or as many as needed for a block of more than 4080, and begins with 16 of its own |
| `JsonAllocator.FitsIff` | tools/gason.cpp:22-27 | the head is filled up to its 4096th byte |
| `JsonAllocator.ReturnedIsUsable` | tools/gason.cpp:19-41 | the block returned is 8-byte aligned, large enough and inside a zone behind its header |
| `JsonAllocator.ReturnedIsApart` | tools/gason.cpp:19-41 | the block a call returns overlaps no block handed out before |
| `JsonAllocator.SupplyKeeps` | tools/gason.cpp:19-41 | as long as `malloc` returns separate rooms, calls for ordinary blocks keep the zones and what `malloc` will return in order |
| `JsonAllocator.BlocksApart` | tools/gason.cpp:19-41 | no two blocks overlap, and no block overlaps a zone header |
| `JsonAllocator.OversizedStaysBehind` | tools/gason.cpp:33-39 | a zone made to size is put behind the head and never takes its place |
| `JsonAllocator.HeadIsOrdinaryIff` | tools/gason.cpp:33-39 | over every run of calls the head is a zone of ordinary size as soon as, and only when, some request was for an ordinary block |
| `JsonAllocator.RunKeeps` | tools/gason.cpp:19-41 | over every run of calls the zones hold exactly the blocks returned, in order |
| `JsonAllocator.Allocator.Allocate` | tools/gason.cpp:19-41 | the linked zones change as the value model has it, and the address is that of its block; when `malloc` fails nothing changes and there is no address |
| `JsonAllocator.Allocator.Deallocate` | tools/gason.cpp:43-49 | every zone is freed once, in list order, and none is left |
| `HttpParser.RequestParser.ConsumeChar` | server/request_parser.cpp:14-191 | one character changes state and request as the transition function has it; `headers.back()` is only taken when there is a header |
| `HttpParser.RequestParser.Parse` | server/request_parser.hpp:34-43 | the loop over one read is the run of the transition function, stopping behind the character that decided |
| `HttpParser.DoRead` | server/connection.cpp:23-44 | reading on while nothing is decided is the run over the reads one after the other |
| `HttpParser.ChunkingIsInvisible` | server/request_parser.hpp:34-43 | however the input is cut into reads, result, request and stopping point are those of one parse of the whole |
| `HttpParser.PrefixOutcome` | server/request_parser.hpp:34-43 | a parse that ends within a prefix does not depend on what follows, and one that does not is indeterminate on it |
| `HttpLanguage.ClassesAgree` | server/request_parser.cpp:224-257 | the parser's classes are those of section 2.2 of RFC 1945: control characters, the nineteen tspecials, tokens, blanks |
| `HttpLanguage.SentencesAreGood` | server/request_parser.cpp:14-191 | a text that begins with a sentence of the grammar is good, is taken just as far as the sentence, and yields the request it means, folded header lines joined without their blanks |
| `HttpSound.FindSentence` | server/request_parser.cpp:14-191 | behind every good parse there is such a sentence at the front of the text |
| `HttpSound.GoodIffSentence` | server/request_parser.cpp:14-191 | a parse is good exactly when the text begins with a sentence, and then determines it |
| `HttpSound.ReadsAreGoodIffSentence` | server/connection.cpp:23-44 | the same for a text that arrives in any reads |
| `HttpSound.BadIffHopeless` | server/request_parser.cpp:14-191 | a parse is bad as soon as, and only when, no continuation of the text begins with a sentence |
| `HttpSound.AlwaysCompletable` | server/request_parser.cpp:14-191 | every state without a result can still be brought to good |
| `HttpLanguage.RequestRoundTrip` | server/request_parser.cpp:14-191 | a printed request is indeterminate on every proper prefix, good on its last character, and comes back unchanged |
| `HttpReply.ToBuffers` | server/reply.cpp:79-92 | the buffers one behind the other spell the status line, each header on its line, a blank line and the content |
| `HttpReply.StatusLineNamesStatus` | server/reply.cpp:12-68 | every status of RFC 1945 goes out under its own number and reason phrase, every other one as 500 |
| `HttpReply.StockPageMatchesLineIff` | server/reply.cpp:96-197 | the stock page of a listed status has the number and phrase of its status line exactly if it is not that of 200, which is empty, or of 204, which leaves out a word; every other one is that of 500 |
| `HttpReply.ReplyReadsBack` | server/reply.cpp:79-92 | read by the request parser from a header line on, a reply gives back its headers and leaves exactly its content |
| `HttpReply.ReadContentLength` | server/request_parser.cpp:193-202 | the number in the first header of that exact name, or 0 |
| `HttpReply.AtoiReadsDecimal` | server/request_parser.cpp:193-202 | the number read back from the decimal spelling of a length is that length |
| `HttpReply.AnnouncedLengthIsLeft` | server/request_handler.cpp:55-64 | a reply whose first header announces the length of its content is read back with as many characters left as announced |
| `HttpReply.BodyHeadersAnnounce` | server/request_handler.cpp:60-64 | the headers the server writes for a body announce its length, and are such headers |
| `HttpReply.StockReplyIsConsistent` | server/reply.cpp:201-211 | every stock reply is read back with as many characters left as it announces |
| `HttpForms.DecodeUrl` | server/request_handler.cpp:67-91 | the loop returns the decoded text, or fails, as the recursive decoding does |
| `HttpForms.DecodedIffSpelled` | server/request_handler.cpp:67-91 | exactly the texts made of plain characters, plus signs and readable escapes are decoded, each piece to what it stands for |
| `HttpForms.WellEscapedIffStrict` | server/request_handler.cpp:67-91 | every text whose percent signs stand before two hexadecimal digits is decoded as section 2.1 of RFC 3986 and the plus sign for a blank have it |
| `HttpForms.HexPairIsRead` | server/request_handler.cpp:73-76 | the stream reads exactly two digits, a digit behind a blank or sign, or a digit in front of something else, and the byte is their number, taken from 256 behind a minus sign |
| `HttpForms.MalformedIsDecodedIff` | server/request_handler.cpp:71-80 | a malformed text is decoded all the same exactly if it can be cut into plain characters, plus signs and percent signs with two characters of these kinds behind them |
| `HttpForms.MalformedExample` | server/request_handler.cpp:74-76 | one such text |
| `HttpForms.UrlRoundTrip` | server/request_handler.cpp:67-91 | whatever bytes an encoder escapes and in whatever case it writes digits, decoding gives the bytes back |
| `HttpForms.ResolvePath` | server/request_handler.cpp:19-45 | a request is refused exactly if it does not decode to an absolute path without ".."; otherwise file and extension are those of the decoded path |
| `HttpForms.ServableIff` | server/request_handler.cpp:26-31 | only a path that begins with a slash and in which ".." stands nowhere is served |
| `HttpForms.ResolvedPathStaysBelow` | server/request_handler.cpp:27-37 | a resolved path is the decoded one, with the index file appended behind a slash; it is absolute, contains no ".." and does not end in a slash |
| `HttpForms.OpenedStaysBelow` | server/request_handler.cpp:47-49 | whatever bytes the request decoded to, the name opened is the document root and a part of the resolved path, absolute there and without ".." |
| `HttpForms.OpenedIsNoDirectoryIff` | server/request_handler.cpp:34-49 | it does not end in a slash exactly if the decoded path has no NUL, or no slash stands in front of its first one |
| `HttpForms.DirectoryExample` | server/request_handler.cpp:34-49 | a request for which it does |
| `HttpForms.TypeIsOpenedIff` | server/request_handler.cpp:39-64 | the extension is that of the name opened exactly if the decoded path has no NUL, or what stands behind its first one (with the index file, where it ends in a slash) has the same extension as what stands in front, or brings none to a front without one |
| `HttpForms.TypeExample` | server/request_handler.cpp:39-64 | a request for which it is not |
| `HttpForms.ExtensionIsLastSuffix` | server/request_handler.cpp:39-45 | the extension has neither slash nor dot and ends the path behind a dot |
| `HttpForms.ParseParameters` | server/request_parser.cpp:204-222 | the parameters of the announced part of the body are appended in order and the request stays as it was |
| `HttpForms.SplitIffJoin` | server/request_parser.cpp:211-216 | splitting is the one way to cut a text at a separator, and joining undoes it |
| `HttpForms.PairIsCut` | server/request_parser.cpp:215-219 | a pair is cut at its first equals sign, and its value is what follows exactly if there is no second one |
| `HttpForms.FormRoundTrip` | server/request_parser.cpp:204-222 | names and values free of both separators come back from a form in order under a matching length |
| `TemplateTokens.MatchVar` | template/NLTemplate.cpp:36-64 | a variable tag at the position, with its name and length, or none |
| `TemplateTokens.MatchTagWithParam` | template/NLTemplate.cpp:67-107 | a tag with a parameter at the position, with its name and length, or none |
| `TemplateTokens.NameIff` | template/NLTemplate.cpp:25-33 | the names matched are those made of letters, digits, underscores, slashes and dots |
| `TemplateTokens.TagIffOccurs` | template/NLTemplate.cpp:140-159 | a tag is found exactly where its spelling with a proper name stands, whatever the order of the tests |
| `TemplateTokens.Tokenizer.Next` | template/NLTemplate.cpp:119-169 | successive calls return the tokens of the text one by one and then the end, across the token of lookahead |
| `TemplateTokens.TokensSpell` | template/NLTemplate.cpp:119-169 | the spellings of the tokens of any text are that text, and no text token is empty, holds a tag or follows another |
| `TemplateTokens.SpelledTokens` | template/NLTemplate.cpp:119-169 | tokenizing the spelling of any such token list gives the list back |
| `TemplateTokens.TokensIffSpelled` | template/NLTemplate.cpp:119-169 | texts and such token lists correspond one to one |
| `TemplateTree.FindAssigned` | template/NLTemplate.cpp:172-190 | what is set is found, and no other name changes |
| `TemplateTree.FindFirst` | template/NLTemplate.cpp:172-179 | the value of a name is that of its first pair, and a name never set renders as nothing |
| `TemplateTree.AssignFirst` | template/NLTemplate.cpp:182-190 | setting replaces the first pair of the name where it stands, or adds one at the end |
| `TemplateTree.LoadedSpellsStream` | template/NLTemplate.cpp:363-388 | the tree built in one pass over a token stream spells that stream, with the ends of unclosed blocks added |
| `TemplateTree.RenderingInterprets` | template/NLTemplate.cpp:207-252 | a loaded tree with any variables set renders as one pass over the stream that looks each variable up in the innermost open block only |
| `TemplateTree.CopyInterprets` | template/NLTemplate.cpp:270-277 | a copy renders as that interpretation of the block's own content, whether or not blocks in the original are disabled or repeated |
| `TemplateTree.RepeatedRenders` | template/NLTemplate.cpp:301-328 | a repeated block renders as that many copies one behind the other, or as nothing if disabled |
| `TemplateTree.OneSegmentChanges` | template/NLTemplate.cpp:318-328 | exchanging one copy exchanges its segment of the output and no other |
| `TemplateHeap.Block.Set` | template/NLTemplate.cpp:182-190 | the first pair of the name takes the value or a new pair goes to the end, and only the variables change |
| `TemplateHeap.Block.FindProperty` | template/NLTemplate.cpp:172-179 | the value of the name, or the empty string |
| `TemplateHeap.Block.FindBlock` | template/NLTemplate.cpp:256-264 | the first block of the name among the fragments |
| `TemplateHeap.Block.Copy` | template/NLTemplate.cpp:270-277 | all objects of the copy are new, apart from one another, and hold the copied value |
| `TemplateHeap.Block.Repeat` | template/NLTemplate.cpp:301-310 | the block holds that many new copies, apart from it and from one another |
| `TemplateHeap.CopiesAreDisjoint` | template/NLTemplate.cpp:301-310 | any two copies of a laid-out block have no object in common |
| `TemplateHeap.Block.SetInCopy` | template/NLTemplate.cpp:313-315 | setting a variable in one copy changes that copy's variables and nothing else of the block |
| `TemplateHeap.Block.RenderNode` | template/NLTemplate.cpp:248-252 | the objects render as the value they hold |
| `TemplateHeap.Block.Render` | template/NLTemplate.cpp:318-328 | so does a block, disabled, repeated or neither |
| `TemplateLoad.LoadRecursive` | template/NLTemplate.cpp:354-391 | loading a file with its includes changes the open blocks as one pass over the flattened stream does; it ends because files include only files of lower rank |
| `TemplateLoad.Load` | template/NLTemplate.cpp:407-416 | the template holds, in new objects, the tree of the flattened stream, and nothing of what it held before |
| `TemplateLoad.FlattenAnyRank` | template/NLTemplate.cpp:384-386 | the flattened stream does not depend on how the includes are ranked |
| `TemplateLoad.PopKeeps` | template/NLTemplate.cpp:375-377 | the end of a block changes no object: the block is in its place from its opening on |
| `TemplateLoad.LoadedRendersStream` | template/NLTemplate.cpp:419-421 | at any later time at which no block is disabled or repeated the template renders as the interpretation of the stream under the variables set by then |
| `BlackjackHand.GetNumericValues` | cpprest/messagetypes.h:139-154 | the loop finds the low total and, with an ace, the high one |
| `BlackjackHand.BestIsBest` | cpprest/messagetypes.h:99-104 | the value is the largest total not above 21 over every choice of one or eleven for each ace, or the least total if none fits, and no other number is |
| `BlackjackHand.StateMeans` | cpprest/messagetypes.h:126-137 | a hand is busted exactly when every choice is above 21, and has a black jack exactly when two cards make 21 |
| `BlackjackShoe.StackDecks` | cpprest/Table.cpp:433-441 | the loops write the numbers of all decks one behind the other |
| `BlackjackShoe.Shuffle` | cpprest/Table.cpp:456-463 | the exchanges take the places in order, four times round, each with the next place the generator gives |
| `BlackjackShoe.OrderArisesIff` | cpprest/Table.cpp:456-463 | the orders that can come out of the exchanges are exactly the rearrangements of the numbers |
| `BlackjackShoe.EveryShoeArises` | cpprest/Table.cpp:425-476 | every full shoe, in every order, can come out |
| `BlackjackShoe.CodesAreCards` | cpprest/Table.cpp:470-471 | the numbers stand for the cards one to one |
| `BlackjackShoe.ShuffledIsShoe` | cpprest/Table.cpp:425-473 | any rearrangement of the stacked decks decodes to every card as often as there are decks, and to nothing else |
| `BlackjackShoe.FillShoe` | cpprest/Table.cpp:425-476 | what the exchanges make of the stacked decks goes behind what is in the queue, and is a full shoe |
| `BlackjackRounds.StepIsSound` | cpprest/Table.cpp:80-139 | every request keeps the table's invariant: while bets are open nobody is insured and the dealer hides no card, and while a round is played there is no second deal and the dealer's hand has two cards |
| `BlackjackRounds.StepLedger` | cpprest/Table.cpp:291-312 | a request changes a player's balance, bet and insurance together by the gain of the round it finishes (bet, -bet, 1.5 bets or nothing, and 2 insurances or -1), otherwise not at all, and a finished round leaves neither bet nor insurance |
| `BlackjackRounds.RunLedger` | cpprest/Table.cpp:187-249 | over any run a player's money changes by the gains of the rounds finished and by nothing else |
| `BlackjackRounds.FreshRun` | cpprest/Table.cpp:80-312 | over every run from a table as it is made the invariant holds, a player has what was brought and the gains of the rounds finished, and every card of the shoe is in the shoe, in a hand or put away |
| `BlackjackRounds.SettledWorth` | cpprest/Table.cpp:291-312 | the settlement of one seat by result, insurance paid when the dealer has a black jack |
| `BlackjackRounds.DealerEnds` | cpprest/Table.cpp:330-341 | from two cards the dealer ends busted or with a best value of 17 to 21 and has drawn each card to a best value below 17; the cards come off the shoe in order, and the value compared is that of the final hand |
| `BlackjackRounds.SeventeenCardsSuffice` | cpprest/Table.cpp:330-341 | seventeen cards less the hand's low total are always enough for the dealer |
| `BlackjackRounds.EnoughCardsStep` | cpprest/Table.cpp:332-334 | with two cards for each seat and eighteen more any request can be carried out |
| `BlackjackRounds.ResultIsVerdict` | cpprest/Table.cpp:343-377 | each result is what the rules say for the best values of the player's hand and of the dealer's final hand |
| `BlackjackRounds.TurnsAreInOrder` | cpprest/Table.cpp:251-289 | turns go round in seat order and the dealer plays only when no player is left in, as long as bets are placed before the deal |
| `BlackjackRounds.LateBetKeepsOrderIff` | cpprest/Table.cpp:187-200 | a bet in mid-round, which the source takes too, keeps that order exactly if it does not bring back a seat passed over with an active hand |
| `BlackjackRounds.LateBetExample` | cpprest/Table.cpp:187-200 | a run from a table as it is made in which such a bet does: a player withdraws the bet, is passed over, and places it again |
| `BlackjackRounds.BetNeverFinishes` | cpprest/Table.cpp:198-209 | while seats stay the same no bet finishes a round, although the code has a branch for it: bets are not opened, no hand gets a result, and after a deal the turn is with a player still in, or stays with the last seat |
| `BlackjackSeats.BetFinishesIff` | cpprest/Table.cpp:187-209 | at any table a bet finishes the round exactly if the turn is behind the last seat and the bet is not the one that deals |
| `BlackjackSeats.NoBetFinishes` | cpprest/Table.cpp:187-209 | over every run from a table as it is made, of requests, players who join and players who leave between rounds, no bet finishes a round |
| `BlackjackSeats.BetAfterLeavingIff` | cpprest/Table.cpp:407-423 | when players leave in mid-round, the next bet finishes the round exactly if as many seats are left as the number of the seat at turn |
| `BlackjackSeats.LeavingExample` | cpprest/Table.cpp:187-209 | a run in which it does, while the hand at turn is still in |
| `BlackjackRounds.BlackJackDoesNotFinish` | cpprest/Table.cpp:202-209 | a new table, whatever follows on the first four cards, whose only player is dealt a black jack and whose round is not over |
| `BlackjackRounds.StayFinishesWhenNobodyIsIn` | cpprest/Table.cpp:251-289 | then the next request to stay makes the dealer play |
| `BlackjackRounds.StepKeepsCards` | cpprest/Table.cpp:33-47 | a request moves cards between shoe, hands and the cards put away, and none is lost or made |
| `BlackjackRounds.RunKeepsCards` | cpprest/Table.cpp:80-139 | over any run every card is in the shoe, in the hands or put away as often as it was there at first |
| `BlackjackMoves.ChipsMove` | cpprest/Table.cpp:109-249 | a request takes from a player's balance exactly the amount bet, the bet doubled or the insurance bought, puts it there, and moves nobody else's chips; what it refuses moves none, and after a finished round the player has all that is left |
| `BlackjackMoves.CardsMove` | cpprest/Table.cpp:80-139 | before the deal or the dealer's play a request moves at most the top card of the shoe, and that behind the cards of the hand at turn |
| `BlackjackMoves.DealsIff` | cpprest/Table.cpp:194-200 | betting closes exactly with the last of as many bets as there are players, and opens exactly when a round is finished |
| `BlackjackMoves.DealOrder` | cpprest/Table.cpp:33-47 | first and second cards in seat order, and then the new shoe, are the shoe of before; the dealer and every player with a bet have two cards, and nobody else has any |
| `BlackjackMoves.TurnGoesOn` | cpprest/Table.cpp:80-139 | the turn stays with a player who is in, or passes to the next one who is, or the round is over |
| `BlackjackTable.DealerTable.DealCards` | cpprest/Table.cpp:25-64 | the two turns of the deal give the dealer and every better two cards a full turn apart, clear all hands, and set the player at turn |
| `BlackjackTable.DealerTable.TakeCard` | cpprest/Table.cpp:80-107 | a hit as the rules have it, passing the turn on when the hand is busted or a black jack; while bets are open the card goes to the dealer |
| `BlackjackTable.DealerTable.Double` | cpprest/Table.cpp:109-139 | doubling as the rules have it, with its three refusals |
| `BlackjackTable.DealerTable.PlaceBet` | cpprest/Table.cpp:170-210 | a bet as the rules have it, dealing when it is the last one, and with the dealer's play behind it when the turn is behind the last seat |
| `BlackjackTable.DealerTable.BuyInsurance` | cpprest/Table.cpp:212-249 | an insurance as the rules have it, refused when insured already or when the dealer shows no ace |
| `BlackjackTable.DealerTable.StayPut` | cpprest/Table.cpp:251-264 | the current player holds and the turn goes on |
| `BlackjackTable.DealerTable.NextPlayer` | cpprest/Table.cpp:266-289 | the turn goes to the next player still in, or the dealer plays |
| `BlackjackTable.DealerTable.FinishRound` | cpprest/Table.cpp:325-386 | the dealer's play, all results and all payments |
| `BlackjackTable.DealerTable.DealerDraws` | cpprest/Table.cpp:326-341 | the drawing loop as the rules have it, with the value last looked at |
| `BlackjackTable.DealerTable.PaySeat` | cpprest/Table.cpp:291-312 | one seat is paid by its result and its insurance, the others are not touched |
| `BlackjackTable.DealerTable.AddPlayer` | cpprest/Table.cpp:392-405 | a player is seated behind the others exactly if the first seat of the name is the dealer's or there is none; otherwise nothing changes |
| `BlackjackTable.DealerTable.RemovePlayer` | cpprest/Table.cpp:407-423 | the first seat of the name is removed and no other; without one nothing changes |
| `BlackjackTable.AddKeepsNamesIff` | cpprest/Table.cpp:392-405 | seating keeps all names different exactly if the new name is not the dealer's |

## Left out

- Licence agent tasks, services, the ACE and WMI plumbing, the Beast and cpprest wrappers, `parser/parser_ini.cpp`, build scripts, assets, logging and mains: they drive the operating system and libraries that are not part of this model.
- JsonParser.JsonParse: nodes hold tagged values, whose words `JsonWords` gives, and links are references; the address of a node is recorded in it. The bits of a double are not modelled. What `malloc` returns is an input, a list of addresses after which it fails, each of them with a zone's room apart from the others.
- JsonAllocator.Allocator.Allocate: does not model the wrap-around of `size_t` for sizes near its limit, or the move constructor and assignment.
- JsonNumber.String2Double: computes in exact reals; the rounding of doubles is not modelled.
- `jsonStrError` and the iterator of `tools/gason.h`: a table of messages and a walk along the nodes.
- HTTP: sockets, connection lifetime, MIME tables and file reading. `connection::do_read` makes the body's text from a raw pointer; here the body is an input of `HttpForms.ParseParameters`.
- HttpParser.RequestParser.ConsumeChar: version numbers are unbounded; the overflow of the source's `int` is undefined there.
- HttpReply.ReadContentLength: so is the number read by `atoi`.
- HttpForms.ParseParameters: requires what the source does not look at, namely that the announced length fits the body and that every pair has an equals sign, because reading past either is undefined.
- Templates: `LoaderFile` (the loader is a finite map from names to texts, and a missing name is a failed load) and destructors; the fragment hierarchy is a datatype of three kinds instead of virtual methods, and output is a returned string instead of a stream.
- TemplateLoad.LoadRecursive: requires that includes have no cycle and that no end of block closes the template itself, for which the source recurses without end or reads an empty vector; the vector of tokenizers is one tokenizer for each activation.
- Blackjack: replies, pending responses, locks, the JSON conversion of tables, `m_stopAt` and the seeding of the generator; the swap places are an input. A player and a hand are values in the sequence of seats, as they are elements of a vector in the source.
- BlackjackRounds.RunLedger: seats are fixed in a run, because a player seated between bets can set off a second deal, which wipes insurances; runs in which players come and go are those of `BlackjackSeats`.
- BlackjackTable.DealerTable.TakeCard: requires, like every request, that the shoe has the cards it draws, because the source takes the front of an empty queue otherwise.

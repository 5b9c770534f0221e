# Models of MAG, its XML engine and its SystemC examples

This Dafny project models the parts of the repository that carry state or run concurrently, and
proves what they promise for every input or every run. `dafny verify dfyconfig.toml` checks it.

**The XML engine of MAG** (`mag/tinyxml2.cc`, `mag/tinyxml2.h`).

- `Options`, `XmlChars`, `Buffer`, `CharRef`: character classes, the scanners over a C buffer, character references and UTF-8
  (XML 1.0, sections 2.11, 4.1 and 4.6; section 3 of RFC 3629).
- `EntityDecoding`, `NullReferences`, `DecodingExact`, `StrPair`, `Escaping`: the in-place two-pointer decoder, the texts on
  which it follows a null pointer and those on which it is right, the collapse of whitespace, and PrintString. `TextPieces`
  writes texts out piece by piece and proves that decoding shows each piece as what it stands for.
- `XmlTree`, `Grammar`, `Nesting`, `RepeatedAttributes`, `XmlParser`: the recursive parser as a function, what its success
  means for the tags, which inputs crash it, and the code over the buffer that refines it.
- `SourceText`, `SourceDocument`, `SourceErrors`: source documents written out, with their blanks and quotes, and that the
  parser accepts exactly these, with exactly their trees; the error of each kind of broken input.
- `Rendering`, `Printer`, `XmlPrinter`, `Layout`: the streaming printer, as a function of the tree and as it runs, and the
  lines of what it prints.
- `Denotation`, `RoundTrip`, `Fidelity`, `Documents`: the tree that a printed text denotes (texts between two tags are one,
  blank ones are nothing, indentation joins the text in front of it), that parsing the text yields it for every tree, and
  which trees come back unchanged.
- `ChildLists`, `Forest`, `Dom`: the intrusive doubly linked child lists on the heap, the tree they form, and the pool
  counters that follow the nodes. Heap methods refine functions on the link fields; the lemmas are about those.
- `ParsedDom`: what a successful parse does to that heap, ending in a tree that mirrors the parsed one.
- `FailedParse`, `FailingStates`: what a failing parse leaves there, which nodes it had open, and reachable documents on
  which InsertAfterChild and the balance of the pools fail.
- `MemPool`: the chunked allocator with its free list and counters.
- `PlasmaProject`: the project file that MAG writes with the printer (`mag/plasma_gen.cc`), line by line and as it is read.

**The control system** (`examples/control_system/src`). `ControlSystem` is the state machine over the scheduler's steps:
a thread runs from one wait to the next, a port write reaches the bus one delta later, time advances to the earliest
wake-up (section 4.2 of IEEE 1666-2011). `ControlModules` has the modules as they compute, each step proved to be the
one the state machine takes. `ControlLaws` says what happens in a run in terms of its worlds alone. A random choice is any index of positive probability, an exponential holding time any
delay of at least one time unit.

**The TLM utilities.** `PayloadQueue` (sections 5.10 and 16.3 of IEEE 1666-2011) and `Extensions` (section 16.4).

**Smaller examples.** `Fifo` (one producer, one consumer, every interleaving), `Phases` (ex3 and its sweep) and `Prefix`
(`prefix2inorder` of `mag/utils.cc`).

## Where the code does less than it promises

In each case the code is modelled as it is, and the exact condition is proved.

- The unknown-entity branch of GetStr (`mag/tinyxml2.cc:250-254`) advances the write pointer without writing. Decoding is
  right exactly when `DecodingExact.StaleFree` holds: the decoder meets no `&#` that starts no reference, and no unknown
  entity after a reference or a line end of two characters made the text shrink, unless the byte left there is an ampersand
  (`DecodingExact.DecodeIsUnescapeIff`, with an instance in `StaleByteExample`). The reference decoder takes every numeric
  reference with a value below 2^32, so all of XML 1.0's, with any number of leading zeros.
- GetCharacterRef returns null for some numeric references and GetStr follows it (`mag/tinyxml2.cc:231`). It does so exactly
  when it meets one that is not `CharRef.Delimited` (`NullReferences.CrashesIff`, with instances); `StrPair.GetStr` reports
  this with its result instead of going on.
- The test for a repeated attribute name (`mag/tinyxml2.cc:1494`) returns the value of the earlier attribute and so decodes
  it. The parser therefore follows the same null pointer, exactly when a tag that it reads repeats a name whose first value
  holds such a reference (`RepeatedAttributes.ParseCrashesIff`; an input is in `RepeatCrashExample`). The outcome
  `NULL_DEREFERENCE` stands for it.
- With indentation, OpenElement writes spaces even inside text (`mag/tinyxml2.cc:2081-2084`), and a plain text in front of an
  element is read back longer. Adjacent texts are read back as one, blank ones not at all, text behind the last tag is an
  error, and at the start blanks and a byte order mark are taken off. `Denotation.ReadBack` says what comes back for every
  tree (`Documents.ParsingUndoesPrinting`); the tree itself does exactly when nothing of this applies (`Fidelity.ComesBackIff`;
  instances are in `Documents.MixedExample`, `JoinedExample` and `BlankExample`).
- The header (`mag/tinyxml2.h:828-835`) promises that InsertAfterChild moves a node that is already in the document.
  This fails if the node is the other child itself and not the last, or is its successor and the last
  (`ChildLists.InsertAfterExact`); the guard is `ChildLists.SafeAfter`. `FailingStates.TwoChildren` builds a document with
  both failures.
- Clear asserts that the four pools balance, unless the document has an error (`mag/tinyxml2.cc:1694-1701`). This holds
  exactly when no surviving node has children or attributes (`Dom.ClearBalances`; `FailingStates.ChildOfUnlinked` builds a
  document where one has). A failed parse deletes the open nodes without counting them as tracked
  (`mag/tinyxml2.cc:854`). Parse clears the pools afterwards (lines 1877-1887), LoadFile does not (1802-1837); there, a
  pool balances exactly when as many of its nodes have a parent as were deleted so (`Dom.DriftBalances`). Which nodes these
  are follows from the input: the one that cannot be read, if any, and every element open there
  (`FailedParse.LostByDepth`). So in a document whose first parse fails, a node pool balances after Clear exactly when
  no such node came from it (`FailingStates.FailThenClear`; `UnclosedElement` has an instance).
- A stray closing tag at top level ends the parse without error (`mag/tinyxml2.cc:864-871`); `Nesting.WellNested` has that case.
- Setting a null extension over a live slot does not decrement the use count
  (`systemc-2.3.0_modified/src/tlm_utils/instance_specific_extensions.h:109-116`). Ownership and views survive it, exact
  counts do not (`Extensions.SetExact`; `NullOverLive` reaches such a state).
- A comment in ParseAttributes (`mag/tinyxml2.cc:1499-1503`) says that duplicated attributes go undetected. The condition
  above it does detect them, and the model follows the code.

## Conventions

A C `char` is a Dafny `char`, a C string a sequence without NUL. `unsigned int` and `unsigned long` wrap at 32 and 64 bits
where references are evaluated. Element nodes of a parsed tree keep their texts raw, as the code does; `Rendering.ShowsAs`
says what the accessors return. In `Dom` the state of a document is one value, `Now()`, made of the link fields, the
attribute lists, the child lists they spell, the descendants of each node and the pool counters; `Good` is the invariant.

## Model

| member | source | states |
|---|---|---|
| XmlChars.ParseTextIsFirst | mag/tinyxml2.cc:118-135 | the text in front of an end tag is cut at the first place where the tag occurs, and there is no cut only when it occurs nowhere |
| XmlChars.CharacterClasses | mag/tinyxml2.h:559-582 | the six blanks, the characters that start a name and those that continue it, listed one by one; all bytes from 128 on count as letters |
| XmlChars.NameCharsAreLongest | mag/tinyxml2.cc:138-155 | a name is the longest run of name characters: all of them are name characters and the next one is not |
| XmlChars.SkippedIsBlank | mag/tinyxml2.h:547-557 | what SkipWhiteSpace passes over is blank, and it stops at a non-blank or the end |
| Buffer.SkipBlanks | mag/tinyxml2.h:547-557 | the loop over the buffer ends at the address of the skipped string, without reading beyond the NUL |
| Buffer.StartsWith | mag/tinyxml2.h:583-600 | the bounded comparison is true exactly when the pattern is a prefix of the C string |
| Buffer.ScanName | mag/tinyxml2.cc:138-155 | the scanned range holds exactly the name the pure parser takes, and the rest stands behind it |
| Buffer.FindText | mag/tinyxml2.cc:118-135 | the loop finds the first occurrence of the end tag, or reports that there is none |
| CharRef.Utf8RoundTrip | mag/tinyxml2.cc:299-344 | for every code point below 0x200000 the standard bit-layout decoder gives the code point back, and the length is 1 to 4 by the limits 0x80, 0x800, 0x10000 |
| CharRef.Utf8Injective | mag/tinyxml2.cc:299-344 | different code points below 0x200000 have different encodings |
| CharRef.MasksAreArithmetic | mag/tinyxml2.cc:299-344 | the masks and shifts of the C code on 32-bit words are the divisions and remainders of the model |
| CharRef.ConvertUTF32ToUTF8 | mag/tinyxml2.cc:299-344 | the fall-through switch, writing from the last byte back, leaves the encoding in the buffer; 0 bytes from 0x200000 on |
| CharRef.ScanBackIsPositional | mag/tinyxml2.cc:347-428 | the right-to-left accumulation on wrapping integers, whatever multiplier and sum it starts with, wrapped multipliers included, adds the positional value of the digits, however many they are, as long as the sum itself does not overflow |
| CharRef.LeadingZeros | mag/tinyxml2.cc:347-428 | leading zeros do not change the value, in either notation, so they are harmless whatever the multiplier has wrapped to |
| CharRef.RefDecodes | mag/tinyxml2.cc:347-428 | a reference of either notation with any number of digits and a value below 2^32 has its positional value and is consumed up to its semicolon |
| CharRef.HexKeepsEight | mag/tinyxml2.cc:372-391 | beyond 2^32 the multiplier has wrapped to zero: a hexadecimal reference has the value of its last eight digits, whatever digits stand in front of them |
| CharRef.RefNeverGrows | mag/tinyxml2.cc:347-428 | whatever GetCharacterRef writes is no longer than what it consumes, so decoding in place cannot overtake the reader |
| CharRef.ReadsIffDelimited | mag/tinyxml2.cc:347-428 | GetCharacterRef returns null exactly where the reference is not delimited: something follows the &#, and either no semicolon comes, or between the last stop character (# or x, by notation) in front of the first semicolon and that semicolon there is a character that is no digit |
| CharRef.StrChr | mag/tinyxml2.cc:347-428 | the search for the semicolon finds the first one or none |
| CharRef.ScanDigits | mag/tinyxml2.cc:347-428 | the backward loop over the digits computes the scan of the specification, with the wrap-around of unsigned int and unsigned long |
| CharRef.FindReference | mag/tinyxml2.cc:347-428 | hexadecimal and decimal references are told apart, delimited and evaluated as specified, null results included |
| CharRef.GetCharacterRef | mag/tinyxml2.cc:347-428 | the whole function: null, or the bytes in the value buffer and the address behind the reference |
| NullReferences.CrashesIff | mag/tinyxml2.cc:187-268 | for every text and every flags, GetStr follows a null pointer exactly if references are processed and reading the text, behind each delimited reference and character by character elsewhere, meets a numeric reference that is not delimited |
| NullReferences.CrashExample | mag/tinyxml2.cc:230-233 | `&#z;` as an attribute value is such a text |
| NullReferences.UnfinishedCrashExample | mag/tinyxml2.cc:230-233 | `a&#12` as the text of an element, where no semicolon follows, is another |
| NullReferences.NoCrashExamples | mag/tinyxml2.cc:230-233 | `&#` at the end of a text and `&#;` are not, though neither is a reference |
| NullReferences.CutOffExample | mag/tinyxml2.cc:230-234 | `&#` at the end of a text loses its ampersand and nothing else |
| DecodingExact.DecodeIsUnescapeIff | mag/tinyxml2.cc:187-274 | for every text and every flags, the two-pointer decoder equals the reference decoder exactly when it meets no &# that starts no reference of a value below 2^32, and no unknown entity after the text has shrunk unless the stale byte happens to be an ampersand |
| DecodingExact.NonReferenceShrinks | mag/tinyxml2.cc:347-428 | what the code writes for a delimited &# that is no reference, and the reference decoder behind it, are shorter than what the reference decoder makes of the whole: such a text is never decoded as the reference decoder does |
| DecodingExact.DecodeIsUnescape | mag/tinyxml2.cc:187-274 | if every ampersand starts one of the five entities or a numeric reference with a value below 2^32, with leading zeros or not, the decoded text is that of the reference decoder |
| TextPieces.NumeralReads | mag/tinyxml2.cc:347-428 | a number written out to base 10 or 16, in small or capital letters, is read as that number |
| TextPieces.OnlyDigits | mag/tinyxml2.cc:372-417 | no other characters are taken for digits |
| TextPieces.PiecesDecode | mag/tinyxml2.cc:187-268 | for all flags: a text made of plain runs, line ends (CR LF, LF CR, CR or LF), the five entities and numeric references in either notation, each written out, is decoded in place to the runs, one LF for each line end, the five characters and the UTF-8 of the numbers |
| TextPieces.PiecesNormalize | mag/tinyxml2.cc:200-223 | so normalising puts one LF where each line end was and changes nothing else |
| TextPieces.LineEndBetween | mag/tinyxml2.cc:200-223 | between two plain texts, each of the four line ends becomes one LF |
| TextPieces.LineEndExample | mag/tinyxml2.cc:200-211 | `a`, CR, LF, `b` and `a`, LF, CR, `b` are decoded to `a`, LF, `b` |
| DecodingExact.StaleByteExample | mag/tinyxml2.cc:250-254 | the unknown-entity branch writes nothing: `&lt;&z` decodes to `<lz` |
| DecodingExact.LeadingZeroExample | mag/tinyxml2.cc:347-428 | `&#0000000065;`, with more digits than the multiplier can count, is decoded to `A` and meets the condition |
| EntityDecoding.EntityIsReference | mag/tinyxml2.cc:235-249 | the table search over the five predefined entities finds the reference that the reference decoder reads |
| EntityDecoding.NumericIsReference | mag/tinyxml2.cc:224-234 | a well-formed numeric reference is decoded to the bytes and the size of the reference decoder |
| EntityDecoding.CollapseIsJoinedWords | mag/tinyxml2.cc:158-184 | collapsing whitespace yields the words of the text joined by single blanks |
| EntityDecoding.SpreadCollapses | mag/tinyxml2.cc:158-184 | whatever blanks stand between and around some words, they collapse to the words with one blank between each two |
| StrPair.StrPair.GetStr | mag/tinyxml2.cc:187-278 | in place: the first call leaves the decoded (and, if asked for, collapsed) text between start and end and nothing else changed; later calls change nothing; a null pointer is followed exactly on a first call that processes references and meets one that is not delimited |
| StrPair.StrPair.DecodeLoop | mag/tinyxml2.cc:187-268 | the loop over the buffer refines the pure decoder: the write position never passes the read position and the part not yet read is still the original |
| StrPair.StrPair.DecodeOne | mag/tinyxml2.cc:196-265 | one iteration moves both positions as one step of the pure decoder does |
| StrPair.StrPair.CollapseWhitespace | mag/tinyxml2.cc:158-184 | the in-place collapse leaves the collapsed text and does not touch what lies outside the pair |
| Escaping.UnescapeEscape | mag/tinyxml2.cc:2024-2059 | the reference decoder undoes the escaping, for the full and the restricted entity set, up to newline normalisation |
| Escaping.DecodeEscape | mag/tinyxml2.cc:2024-2059 | decoding in place what PrintString wrote gives the newline normalisation of the string |
| Escaping.RoundTripWithoutCR | mag/tinyxml2.cc:2024-2059 | a string without carriage return comes back exactly |
| Escaping.NormalizeIdempotent | mag/tinyxml2.cc:200-223 | normalising twice is normalising once |
| Escaping.NormalFormOf | mag/tinyxml2.cc:200-223 | a string is its own normal form exactly when it has no carriage return |
| Escaping.EscapeReferences | mag/tinyxml2.cc:2024-2059 | every ampersand in what PrintString writes starts a reference, so decoding it meets no stale byte |
| Escaping.EscapeAvoids | mag/tinyxml2.cc:2024-2059 | what PrintString writes contains no angle bracket, in attribute values neither kind of quote, and no NUL of its own |
| Escaping.PlainIsKept | mag/tinyxml2.cc:2024-2059 | no other characters are escaped |
| Escaping.EscapeExamples | mag/tinyxml2.cc:2024-2059 | in attribute values all five characters become entities, in texts three of them |
| Escaping.EscapeKeepsBlank | mag/tinyxml2.cc:2024-2059 | escaping neither makes blank text non-blank nor the reverse |
| Escaping.DecodeComment | mag/tinyxml2.cc:187-223 | comments and CDATA come back newline-normalised |
| Nesting.NestingAgrees | mag/tinyxml2.cc:824-898 | whatever elements are still open, the recursive parser succeeds and hands on its closing tag exactly when a flat reader with a stack accepts |
| Nesting.ParsesIffWellNested | mag/tinyxml2.cc:824-898 | no error is reported exactly when every closing tag names the innermost open element and none is left open, except that a stray closing tag at top level ends the reading |
| Nesting.ParsedTagsMatch | mag/tinyxml2.cc:824-898 | reading the source tag by tag yields exactly the tags of the tree in document order: every element kept open was closed by a tag of its name |
| Nesting.ParsedNodeMatches | mag/tinyxml2.cc:516-582 | the same for one node and what it consumed |
| XmlParser.XMLDocument.Identify | mag/tinyxml2.cc:516-582 | the header comparisons in the buffer classify the node and skip as the grammar says |
| XmlParser.XMLDocument.ParseAttribute | mag/tinyxml2.cc:1135-1160 | name, equals sign and quoted value are taken from the buffer as the grammar says, or refused |
| XmlParser.XMLDocument.ParseAttributes | mag/tinyxml2.cc:1473-1527 | the loop reads the attributes up to the end of the tag and refuses a repeated name, after decoding the value of the earlier attribute: with the error the grammar gives, or by following a null pointer |
| XmlParser.XMLDocument.FindAttribute | mag/tinyxml2.cc:1276-1284 | the walk along the list finds the first attribute of the name, or none |
| XmlParser.XMLDocument.Attribute | mag/tinyxml2.cc:1287-1297 | the decoded value of the first attribute of the name, or null |
| XmlParser.XMLDocument.ParseTag | mag/tinyxml2.cc:1544-1570 | a tag is read as opening, sealed or closing with its name and attributes |
| XmlParser.XMLDocument.ParseElement | mag/tinyxml2.cc:1544-1570 | an element with its content is read as the grammar says, mismatched and missing closing tags included |
| XmlParser.XMLDocument.ParseTextRun | mag/tinyxml2.cc:922-947 | text up to the next tag is taken, its leading blanks included, as Identify goes back to where it started; with no tag behind it, it is refused |
| XmlParser.XMLDocument.ParseDeep | mag/tinyxml2.cc:824-898 | the loop over siblings returns the nodes, the closing tag for the parent and the position, or sets the error |
| XmlParser.XMLDocument.Parse | mag/tinyxml2.cc:1861-1946 | on any buffer the document ends up with the tree and byte order mark of the specification, or with its error and no children, or the parser follows a null pointer, exactly when the flat reader comes to a fatal tag; the recursion terminates, as the remaining input gets shorter |
| SourceText.AttributeReads | mag/tinyxml2.cc:1135-1160 | a written attribute, with any blanks around its equals sign and in either kind of quotes, is read as its name and raw value |
| SourceText.AttributeIsWritten | mag/tinyxml2.cc:1135-1160 | nothing else is read as an attribute |
| SourceText.TagReads | mag/tinyxml2.cc:1473-1570 | a written tag, with any blanks and quotes in it, is read as the opening, closing or sealed tag that it is, with its attributes in order |
| SourceText.TagIsWritten | mag/tinyxml2.cc:1473-1570 | nothing else is read as a tag |
| SourceDocument.AllRead | mag/tinyxml2.cc:824-898 | written nodes, with blanks wherever they may stand, are read as the trees they spell |
| SourceDocument.AllAreWritten | mag/tinyxml2.cc:824-898 | whatever is read as nodes was written so, up to the closing tag or the end of the input |
| SourceErrors.NodesIff | mag/tinyxml2.cc:824-898 | the parser reads certain nodes from a text exactly if the text spells them, up to its end or to a stray closing tag |
| SourceErrors.AcceptedIff | mag/tinyxml2.cc:1934-1946 | an input is accepted, with certain nodes and a byte order mark or none, exactly if it is blanks, the mark, and a text that spells these nodes |
| SourceErrors.UnfinishedLeaves | mag/tinyxml2.cc:922-1105 | a comment, CDATA section, declaration or unknown that does not end is reported with the error of its kind, whatever it holds |
| SourceErrors.Mismatched | mag/tinyxml2.cc:873-893 | content that ends in a closing tag of another name is reported as XML_ERROR_MISMATCHED_ELEMENT |
| SourceErrors.OpenAtEnd | mag/tinyxml2.cc:873-893 | so is a start tag at the very end of the input |
| SourceErrors.Unclosed | mag/tinyxml2.cc:848-858 | content that comes to the end of the input is reported as XML_ERROR_PARSING |
| SourceErrors.BadTail | mag/tinyxml2.cc:1473-1527 | behind good attributes, the end of the input and a character that starts no attribute and ends no tag are XML_ERROR_PARSING_ELEMENT, an attribute that cannot be read is XML_ERROR_PARSING_ATTRIBUTE |
| SourceErrors.RepeatedAttribute | mag/tinyxml2.cc:1493-1498 | so is a second attribute of a name, if the first value of that name can be decoded |
| SourceErrors.TagFails | mag/tinyxml2.cc:1544-1561 | the error of the attributes is the error of the tag, closing tags included |
| SourceErrors.NamelessTag | mag/tinyxml2.cc:1555-1559 | a tag without a name is reported as XML_ERROR_PARSING |
| SourceErrors.ErrorInside | mag/tinyxml2.cc:848-858 | an error in the content of an element is the error of the element |
| SourceErrors.ErrorBehind | mag/tinyxml2.cc:848-858 | an error behind other nodes is the error of the list |
| SourceErrors.DocumentFails | mag/tinyxml2.cc:1861-1946 | a blank input is XML_ERROR_EMPTY_DOCUMENT, and any error of the nodes is that of the document |
| RepeatedAttributes.HeadFatal | mag/tinyxml2.cc:1473-1513 | the duplicate test follows a null pointer exactly when the first attribute that repeats a name has an earlier namesake whose value meets a numeric reference that is not delimited |
| RepeatedAttributes.TagFatal | mag/tinyxml2.cc:1544-1561 | the same for a whole tag, closing tags included |
| RepeatedAttributes.CrashesFlat | mag/tinyxml2.cc:824-898 | whatever elements are open, the recursive parser crashes exactly when a flat reader with a stack comes to such a tag |
| RepeatedAttributes.ParseCrashesIff | mag/tinyxml2.cc:1934-1946 | a document crashes the parser exactly when a tag that is read repeats an attribute name in that way |
| RepeatedAttributes.RepeatCrashes | mag/tinyxml2.cc:1493-1498 | every element that starts with two attributes of one name, the first with such a value, crashes the parser |
| RepeatedAttributes.RepeatCrashExample | mag/tinyxml2.cc:1493-1498 | an instance: an attribute x with value &#z; and another x |
| Printer.VisitRenders | mag/tinyxml2.cc:2271-2315 | visiting any node, wherever the printer is, appends its rendering and leaves the text depth that belongs to it; the element stack and the depth are as before |
| Printer.VisitNodesRenders | mag/tinyxml2.cc:2271-2315 | visiting siblings appends their renderings, with the indentation that depends on the text written before, in this element or in one inside it |
| XmlPrinter.XMLPrinter.PrintString | mag/tinyxml2.cc:2024-2059 | the run-flushing loop appends the escaped text |
| XmlPrinter.XMLPrinter.OpenElement | mag/tinyxml2.cc:2074-2090 | seals the tag before, pushes the name, and writes newline and indentation unless inside text or in compact mode |
| XmlPrinter.XMLPrinter.CloseElement | mag/tinyxml2.cc:2134-2157 | pops the innermost name; an element without content becomes a sealed tag |
| XmlPrinter.XMLPrinter.PushText | mag/tinyxml2.cc:2170-2182 | remembers the depth of the text, which suppresses indentation until that element is closed |
| XmlPrinter.XMLPrinter.PushTag | mag/tinyxml2.cc:2225-2258 | comments, declarations and unknowns are written between their delimiters |
| XmlPrinter.XMLPrinter.PushHeader | mag/tinyxml2.cc:2062-2071 | byte order mark and declaration come first |
| XmlPrinter.XMLPrinter.VisitEnter | mag/tinyxml2.cc:2271-2281 | opens the element and writes all attributes of the list in order |
| XmlPrinter.XMLPrinter.Accept | mag/tinyxml2.cc:1612-1622 | the visitor refines the visit of the specification, node by node |
| XmlPrinter.XMLPrinter.PrintDocument | mag/tinyxml2.cc:585-595 | printing a document leaves the output of the specified visit |
| Rendering.RawShowsNormal | mag/tinyxml2.cc:187-274 | the accessors of the parsed tree return the original names, texts, comments and attribute values, newline-normalised |
| Layout.IndentedIsLines | mag/tinyxml2.cc:2074-2157 | an indented document without mixed content is one line for each tag that has elements inside, for each leaf and for each element with text, four blanks in for each level, joined by line feeds; nothing is put into an element that starts with text and has no elements |
| Layout.CompactAll | mag/tinyxml2.cc:2074-2157 | a compact document is its tags and texts with nothing between them |
| RoundTrip.AttributesParse | mag/tinyxml2.cc:1473-1527 | the rendered attributes, with distinct legal names, are read back in order |
| RoundTrip.NodeParses | mag/tinyxml2.cc:516-582 | a rendered node other than plain text, in front of anything, is read back as what its text denotes, and exactly consumed |
| RoundTrip.RunParses | mag/tinyxml2.cc:516-582 | the characters between two tags are read back as one text with all its blanks, or as nothing if they are blank |
| RoundTrip.TextAtEnd | mag/tinyxml2.cc:922-947 | at the end of the input, blank text is skipped and any other reported as XML_ERROR_PARSING_TEXT |
| RoundTrip.AllParse | mag/tinyxml2.cc:824-898 | rendered siblings, behind any pending text and in front of anything, mixed with blank, adjacent or any other texts, are read back as the list that their text denotes, followed by what the characters behind the last tag and the rest are read as |
| RoundTrip.ParseUndoesPrint | mag/tinyxml2.cc:1861-1946 | parsing the rendered document, of any tree with readable tags, compact or pretty, gives what ReadBack says: the denoted tree and the byte order mark, or the error |
| Denotation.FrontPrintable | mag/tinyxml2.cc:2074-2090 | the tree that a printed text denotes can itself be printed and read back |
| Fidelity.NotLonger | mag/tinyxml2.cc:922-947 | texts are joined or dropped, never split: the denoted list is no longer than the printed one |
| Fidelity.DenotedSame | mag/tinyxml2.cc:2074-2090 | a node is read back as itself, closing types as printed and line ends normalised, exactly when every plain text in it is non-blank, not followed by another, and, with indentation, not followed by an element |
| Fidelity.WholeSame | mag/tinyxml2.cc:2074-2090 | the same for siblings, behind a pending text |
| Fidelity.StrippedDiffers | mag/tinyxml2.cc:1861-1946 | where Parse skips blanks of the first text, the tree does not come back |
| Fidelity.ComesBackIff | mag/tinyxml2.cc:1861-1946 | a printed document comes back, with its byte order mark, exactly when it has a node, every plain text is non-blank and apart from other texts and, with indentation, from elements, the last node is no plain text, and without a mark of its own the first text starts with neither a blank nor a byte order mark |
| Documents.VisitRendersDocument | mag/tinyxml2.cc:2062-2315 | the streaming printer, started on any document, leaves exactly its rendering |
| Documents.ParsingUndoesPrinting | mag/tinyxml2.cc:824-996 | for every tree with readable tags, whatever texts it has, at any depth, compact or indented, with or without a byte order mark: printing and parsing gives the document, or the error, that ReadBack says, and the accessors show its values newline-normalised |
| Documents.ComesBackUnchanged | mag/tinyxml2.cc:824-996 | under the condition of ComesBackIff there is no error, and the accessors of the parsed tree show the printed tree, newline-normalised |
| Documents.MixedExample | mag/tinyxml2.cc:2081-2083 | a text in front of an element, printed with indentation, is read back with four spaces more |
| Documents.JoinedExample | mag/tinyxml2.cc:922-947 | two adjacent texts are read back as one |
| Documents.BlankExample | mag/tinyxml2.cc:516-582 | a blank and an empty text are not read back at all |
| PlasmaProject.GeneratePlasmaFile | mag/plasma_gen.cc:45-150 | the sequence of printer calls, with its loop over the monitors, writes the project tree for any number of requirements, and the file is, byte for byte, the byte order mark and the lines of FileRows |
| PlasmaProject.ProjectFileParses | mag/plasma_gen.cc:45-150 | for every project the file parses without error, and a reader that goes by the names of elements and attributes, and refuses anything unknown, finds the project name, model name, type and content and the list of requirement names and formulas, newline-normalised, a blank content or formula as an empty one |
| PlasmaProject.FileIsRows | mag/plasma_gen.cc:45-150 | the lines of the file: declaration, PlasmaProject with its name, models with one model, requirements with one requirement of three lines for each monitor, or as a single tag, and resources |
| ChildLists.Node.Unlink | mag/tinyxml2.cc:648-666 | the pointer assignments, on any heap, change the link fields as the model of Unlink says and nothing else |
| ChildLists.UnlinkSpells | mag/tinyxml2.cc:648-666 | the forward and backward chains then both spell the list without the node, and no other list changed |
| ChildLists.LastSpells | mag/tinyxml2.cc:678-705 | after InsertEndChild's assignments both chains spell the list with the node at the end |
| ChildLists.FirstSpells | mag/tinyxml2.cc:708-736 | after InsertFirstChild's assignments both chains spell the list with the node in front |
| ChildLists.AfterSpells | mag/tinyxml2.cc:739-765 | after InsertAfterChild's assignments both chains spell the list with the node behind the other |
| ChildLists.WithoutAt | mag/tinyxml2.cc:648-666 | the list without a node is what was in front of the node and what was behind it |
| ChildLists.InsertedAt | mag/tinyxml2.cc:739-765 | the list with a node put behind another is what was up to that one, the node, and what was behind |
| ChildLists.SafeAfterWorks | mag/tinyxml2.cc:739-765 | under its guard InsertAfterChild moves the node from its old list to the place behind the other child |
| ChildLists.InsertAfterExact | mag/tinyxml2.cc:754-764 | where the other child has a successor, InsertAfterChild follows no null pointer and leaves intact lists exactly when the added node is not that child itself, nor its successor and at the same time the last child |
| FailingStates.TwoChildren | mag/tinyxml2.cc:739-765 | a document built with NewElement and InsertEndChild, with children a and b: InsertAfterChild(a, b) takes b out and then follows the null behind a, InsertAfterChild(a, a) leaves links that spell no child lists |
| Forest.CutForest | mag/tinyxml2.cc:648-666 | cutting a node off its parent leaves a forest in which its subtree is a tree of its own |
| Forest.GraftForest | mag/tinyxml2.cc:910-919 | putting a tree under a node outside it leaves a forest |
| Forest.NoCycle | mag/tinyxml2.cc:601-609 | following parents never leads back to a node |
| Dom.Document.InsertEndChild | mag/tinyxml2.cc:678-705 | null and no change for a node of another document; otherwise the node leaves its old list and ends the new one, all other lists are unchanged, the structure stays a forest and the pools stay balanced |
| Dom.Document.InsertFirstChild | mag/tinyxml2.cc:708-736 | the same with the node in front |
| Dom.Document.InsertAfterChild | mag/tinyxml2.cc:739-765 | the same with the node behind the given child; null if that is no child of this node |
| Dom.Document.InsertChildPreamble | mag/tinyxml2.cc:910-919 | a linked node is unlinked, an unlinked one is counted as tracked |
| Dom.Document.DeleteChildren | mag/tinyxml2.cc:635-645 | exactly what was below the node is gone, all other nodes keep their children, parents and attributes, and the untracked counts are unchanged |
| Dom.Document.Destroy | mag/tinyxml2.cc:900-908 | exactly the node and what was below it are gone, and its siblings close ranks |
| Dom.Document.DeleteChild | mag/tinyxml2.cc:669-675 | the same for a child, with the pools still balanced |
| Dom.Document.DeleteNode | mag/tinyxml2.cc:1770-1785 | the same from the document, for linked and unlinked nodes |
| Dom.Document.NewNode | mag/tinyxml2.cc:1705-1752 | a new node is unlinked and untracked |
| Dom.Document.FindOrCreateAttribute | mag/tinyxml2.cc:1426-1451 | a name not in the list is appended, and the attribute is tracked at once; a known name changes nothing |
| Dom.Document.DeleteAttribute | mag/tinyxml2.cc:1454-1470 | the first attribute of that name goes, and its chunk is given back |
| Dom.Document.FirstChildElement | mag/tinyxml2.cc:770-781 | walking forward finds the first element of the child list, or the first of the name asked for, or null if there is none |
| Dom.Document.LastChildElement | mag/tinyxml2.cc:784-795 | walking backward finds the last element of the child list, or the last of the name asked for, or null if there is none |
| Dom.Document.Clear | mag/tinyxml2.cc:1673-1702 | once the document's children are deleted, the four equalities asserted hold exactly when no node that is left has children or attributes; after failed parses a node pool balances exactly when as many of its nodes have a parent as were deleted untracked |
| Dom.CountsAreConserved | mag/tinyxml2.h:367-418 | in each node pool CurrentAllocs less Untracked is the number of live nodes that have a parent, less the number of those that failed parses deleted untracked |
| Dom.ClearBalances | mag/tinyxml2.cc:1694-1701 | the four pools balance exactly when every live node is childless and attribute-free |
| Dom.DiscardDrifts | mag/tinyxml2.cc:848-894 | deleting a node that never got a parent without counting it as tracked, as ParseDeep does on an error, leaves its pool one untracked node more than before |
| Dom.DriftBalances | mag/tinyxml2.cc:848-854 | after any number of such deletions a pool balances exactly when as many of its nodes have a parent as were deleted in this way; with no linked node left, exactly when none was |
| Dom.Document.GiveUp | mag/tinyxml2.cc:848-894 | when a parse fails, the open nodes are deleted in turn, with what is below them and nothing else, and each leaves its pool one untracked node too many |
| Dom.PlacedGood | mag/tinyxml2.cc:678-765 | every insertion keeps chains, parents, acyclicity and counts |
| Dom.RemovedDeleted | mag/tinyxml2.cc:611-617 | the steps of a node's destructor together remove exactly its subtree |
| ParsedDom.Build | mag/tinyxml2.cc:824-898 | one parsed node on the heap: created, filled, its closing tag's node created and thrown away, and then inserted last, so that its subtree mirrors the tree with its names and raw texts and no old node changes but for the new child; the pools stay balanced |
| ParsedDom.BuildAll | mag/tinyxml2.cc:824-898 | the same for siblings, in order |
| ParsedDom.ReadAttributes | mag/tinyxml2.cc:1473-1513 | the attributes of the tag end up in the element's list in order, each tracked at once |
| ParsedDom.ReadClosingTag | mag/tinyxml2.cc:864-871 | the node created for a closing tag leaves no trace: same lists, same balance |
| ParsedDom.ParseInto | mag/tinyxml2.cc:1934-1946 | an error-free parse leaves under the document exactly the nodes of the parsed tree, old nodes as they were, and balanced pools, a stray closing tag included |
| ParsedDom.ParsedIsLegal | mag/tinyxml2.cc:1493-1498 | whatever the parser accepts has distinct attribute names in every element |
| FailedParse.LostAgrees | mag/tinyxml2.cc:824-898 | for every input, the nodes that the recursive parser holds open when it fails are, pool by pool, those that a flat reader with a stack of open elements has at that point |
| FailedParse.LostByDepth | mag/tinyxml2.cc:824-898 | so a failing parse gives up the node that it cannot read, if there is one, and one element for each that is open there |
| FailedParse.Descend | mag/tinyxml2.cc:824-898 | down to the failure each node is created and filled as far as it was read; the nodes open then are new, unlinked and from these pools, in this order, and no old node changed |
| FailedParse.Unwound | mag/tinyxml2.cc:848-894 | once the open nodes are deleted, the lists, links, attributes and descendants are as before the failing node was begun |
| FailedParse.ParseFailing | mag/tinyxml2.cc:848-894 | a failing parse leaves under its document exactly the nodes completed at top level, everything else as it was, and the pools off by exactly the nodes that were open |
| FailingStates.FailThenClear | mag/tinyxml2.cc:1673-1702 | in a document whose first parse failed, emptied without ClearPools as LoadFile does, a node pool balances exactly when no node open at the failure came from it |
| FailingStates.UnfinishedLeaf | mag/tinyxml2.cc:848-854 | a leaf that does not end is lost from the text pool if it is CDATA, and from the comment pool otherwise |
| FailingStates.UnfinishedText | mag/tinyxml2.cc:848-854 | a text that no tag follows is lost from the text pool |
| FailingStates.PoolOfKind | mag/tinyxml2.cc:516-582 | a leaf that is read comes from the pool of its kind |
| FailingStates.UnclosedElement | mag/tinyxml2.cc:1694-1701 | an instance: after the input <a> the element pool does not balance |
| FailingStates.ChildOfUnlinked | mag/tinyxml2.cc:1694-1701 | an element with a child that was itself never inserted survives Clear, and not all pools balance |
| MemPool.BlocksFollowHighWater | mag/tinyxml2.h:371-404 | over any run that frees only live chunks, the number of blocks is the high-water mark divided by the block size, rounded up, and free and live chunks make up all blocks |
| MemPool.FewestBlocks | mag/tinyxml2.h:371-393 | a consistent pool has as few blocks as its high-water mark allows |
| MemPool.TotalAllocs | mag/tinyxml2.h:371-393 | the total count is the number of chunks ever handed out, all of them untracked until SetTracked |
| MemPool.MemPoolT.Alloc | mag/tinyxml2.h:371-393 | returns a chunk that was not live; the live chunks are then the old ones and this one; counters as specified |
| MemPool.MemPoolT.Free | mag/tinyxml2.h:395-404 | the live chunks are then the old ones without this one; null changes nothing |
| MemPool.MemPoolT.NewBlock | mag/tinyxml2.h:372-382 | the chunks of a new block are linked in address order, ending in null |
| MemPool.MemPoolT.LiveCount | mag/tinyxml2.h:367-369 | CurrentAllocs is the number of live chunks, and live and free chunks partition the chunks of all blocks |
| MemPool.MemPoolT.Clear | mag/tinyxml2.h:351-362 | drops all blocks and resets all counters |
| ControlSystem.InvAt | examples/control_system/src/bus.cc:71-201 | every world of every run keeps the ranges of all states, the counts as upper bounds of the working groups, and that whoever wrote a port wakes up later |
| ControlSystem.SensorsLost | examples/control_system/src/proci.cc:50-163 | the working-sensor count never rises; once it is below M_SENSOR the input processor changes state at most once more in the rest of the run, and not at all unless it was already waiting to |
| ControlSystem.ActuatorsLost | examples/control_system/src/proco.cc:51-164 | the same for the actuator count and the output processor |
| ControlSystem.CountIsZeroRun | examples/control_system/src/procm.cc:112-152 | in every run the count of skipped cycles is the smaller of MAX_COUNT + 1 and the number of latest timeouts in a row that came with a zero sample of comp |
| ControlSystem.DownForEver | examples/control_system/src/procm.cc:55-152 | once the main processor is in state 0, or the sensors are lost with no request or reboot outstanding, this stays so, and from the seventh later timeout on the count is MAX_COUNT + 1 |
| ControlSystem.RequestsServedInRuns | examples/control_system/src/bus.cc:71-201 | in every run a pending input request is consumed only by a bus step that ends with comp set, a pending output request only by an output reboot or a step that sees the output side working |
| ControlSystem.RebootsHandled | examples/control_system/src/proci.cc:141-152 | at any time the reboot handlers have run as often as the processor rebooted, less one if an event is still pending |
| ControlLaws.InputRequests | examples/control_system/src/bus.cc:71-195 | in every world an input request is pending after a step exactly if an input reboot, or another bus step that sees the input side work, raised it, or it was pending and the main processor did not compute |
| ControlLaws.OutputRequests | examples/control_system/src/bus.cc:71-195 | an output request is pending after a bus step exactly if the output side does not work, it did not reboot, and the request was pending or the main processor is up and an input reboot came or an input request is left |
| ControlLaws.Computations | examples/control_system/src/bus.cc:71-195 | comp after a timeout says whether the main processor computed in it; a reboot only adds a computation |
| ControlLaws.RequestsInRuns | examples/control_system/src/bus.cc:71-195 | so it is in every step of every run |
| ControlLaws.RecoversWhileWorking | examples/control_system/src/bus.cc:151-195 | in any run, while the main processor and both sides work, from the fourth timeout on comp is set and no cycle counts as skipped, whatever was pending before |
| ControlLaws.NeverSkipsWhileWorking | examples/control_system/src/bus.cc:151-195 | from the start of a run, as long as everything has worked, the input request is pending, the output request is not, every timeout computes and the count is zero |
| ControlLaws.SampleIsComp | examples/control_system/src/procm.cc:112-152 | what counts at a timeout is comp as it was when the wait for it began |
| ControlLaws.CountAtTimeout | examples/control_system/src/procm.cc:112-152 | a timeout clears the count if that was set and otherwise adds one, up to five |
| ControlLaws.SensorsFall | examples/control_system/src/sensor.cc:48-102 | in every run a sensor is at level three less its turns but the first, or at zero, and awaits a transition exactly if it has had a turn and is not at zero |
| ControlLaws.ActuatorsFall | examples/control_system/src/actuator.cc:41-100 | the same for an actuator, from level two |
| ControlLaws.MainFalls | examples/control_system/src/procm.cc:58-109 | the main processor fails for good at the second turn of its thread |
| ControlLaws.GroupsCounted | examples/control_system/src/sa_grp.cc:62-78 | every unit of time the counts become the numbers of sensors at level two and more and of actuators at level one and more |
| ControlLaws.InputMoves | examples/control_system/src/proci.cc:50-163 | the input processor goes from 2 to 0 or 1, from 1 to 0 or 2, and nowhere from 0, awaits one of these exactly while 37 sensor groups work, and counts and announces the moves from 1 to 2 |
| ControlLaws.OutputMoves | examples/control_system/src/proco.cc:51-164 | the same for the output processor and 27 actuator groups |
| ControlLaws.CanReboot | examples/control_system/src/proci.cc:117-154 | a processor whose wait after a transient fault is over can reboot, and the bus is told |
| ControlLaws.ClockAdvances | examples/control_system/src/sensor.cc:48-102 | time goes on to the next wake-up and no further |
| ControlLaws.WakesLater | examples/control_system/src/sensor.cc:48-102 | a wait takes at least one unit, and exactly one where no transition is left |
| ControlLaws.NeverStuck | examples/control_system/src/main.cc:88-93 | in every world of every run something can happen next |
| ControlModules.BusModule.ReceivingInputReboot | examples/control_system/src/bus.cc:71-109 | the handler's assignments in turn give the step of the state machine |
| ControlModules.BusModule.ReceivingOutputReboot | examples/control_system/src/bus.cc:112-151 | the same for the output reboot |
| ControlModules.BusModule.ReceivingTimeout | examples/control_system/src/bus.cc:154-201 | the same for the timeout: reqo is computed from the new reqi |
| ControlModules.RebootingProcessor.BeginWait | examples/control_system/src/proci.cc:55-116 | the loops over rates and guards leave positive probability exactly for the transitions of the state machine, and a transition is awaited exactly if there is one |
| ControlModules.RebootingProcessor.Resume | examples/control_system/src/proco.cc:117-154 | from wait to wait: the chosen state, the reboot count and the port write of the state machine |
| ControlModules.Chain.Resume | examples/control_system/src/sensor.cc:48-102 | only the next lower state has a positive rate, so a chain steps down by one or rests at zero |
| ControlModules.SaGrp.CountWorking | examples/control_system/src/sa_grp.cc:62-78 | the counting loop counts the groups at or above the level |
| ControlModules.TimeoutCounter.Resume | examples/control_system/src/procm.cc:112-152 | the count is reset on a set sample and otherwise grows up to MAX_COUNT + 1; the next sample is taken before the bus reacts |
| ControlModules.SumRates | examples/control_system/src/sensor.cc:51-62 | the loop sums the positive rates, and the sum is positive exactly if one of them is |
| ControlModules.FillProbabilities | examples/control_system/src/proci.cc:62-85 | each positive rate becomes its share of the sum, and the shares add up to one |
| PayloadQueue.StableSortSorts | systemc-2.3.0_modified/src/tlm_utils/peq_with_get.h:43-53 | the multimap keeps entries sorted by time, and those of equal time in the order of notification |
| PayloadQueue.StableSortUnique | systemc-2.3.0_modified/src/tlm_utils/peq_with_get.h:43-53 | there is only one such order |
| PayloadQueue.StepKeeps | systemc-2.3.0_modified/src/tlm_utils/peq_with_get.h:43-72 | every step, cancel_all included, keeps: delivered followed by queued transactions are the stable sort of all notified ones, nothing came early, and with a waiting consumer a non-empty queue has its event pending no later than its first entry |
| PayloadQueue.RunKeeps | systemc-2.3.0_modified/src/tlm_utils/peq_with_get.h:43-72 | so it is in every state of every run |
| PayloadQueue.PromptlyDelivered | systemc-2.3.0_modified/src/tlm_utils/peq_with_get.h:56-72 | a consumer that drains the queue without waiting in between gets each transaction exactly at its time |
| PayloadQueue.NeverInVain | systemc-2.3.0_modified/src/tlm_utils/peq_with_get.h:43-72 | in every state of every run, a pending event is due at the time of a queued entry, or now |
| PayloadQueue.PeqWithGet.Notify | systemc-2.3.0_modified/src/tlm_utils/peq_with_get.h:43-47 | the object takes the step of the state machine and keeps its invariant: delivered and queued stay the stable sort of all that was notified; the transaction is queued and the event is pending no later than its time |
| PayloadQueue.PeqWithGet.NotifyNow | systemc-2.3.0_modified/src/tlm_utils/peq_with_get.h:49-53 | the same for an immediate notification: the consumer is awake and something due is first in the queue |
| PayloadQueue.PeqWithGet.GetNextTransaction | systemc-2.3.0_modified/src/tlm_utils/peq_with_get.h:56-72 | what is returned is due, and next in the stable sort of all that was notified; null is returned only when nothing queued is due, and then the event is pending no later than the first entry |
| PayloadQueue.PeqWithGet.CancelAll | systemc-2.3.0_modified/src/tlm_utils/peq_with_get.h:80-83 | only what was delivered still counts as notified, nothing else will come, and the invariant is kept |
| Extensions.Registry.ContainerFor | systemc-2.3.0_modified/src/tlm_utils/instance_specific_extensions.h:286-296 | an accessor gets the container of the transaction, from the pool if it had none, and nobody sees a difference; containers stay either pooled or attached to one transaction |
| Extensions.Registry.SetExtension | systemc-2.3.0_modified/src/tlm_utils/instance_specific_extensions.h:109-125 | this slot of this accessor on this transaction now holds what was set, and every other slot of every transaction what it held; where the use counts were exact, they stay so exactly unless null is set over a live slot |
| Extensions.Registry.GetExtension | systemc-2.3.0_modified/src/tlm_utils/instance_specific_extensions.h:127-136 | returns what this accessor last put there |
| Extensions.Registry.ClearExtension | systemc-2.3.0_modified/src/tlm_utils/instance_specific_extensions.h:138-154 | this slot is empty and every other slot of every transaction as it was, also when the container goes back to the pool |
| Extensions.LastSetWins | systemc-2.3.0_modified/src/tlm_utils/instance_specific_extensions.h:109-154 | of two extensions set one after the other the second is found, the first was returned, and nothing is found once it is cleared |
| Extensions.TakenGood | systemc-2.3.0_modified/src/tlm_utils/instance_specific_extensions.h:233-238 | a container taken from the pool shows nothing, as if it were not there |
| Extensions.SetExact | systemc-2.3.0_modified/src/tlm_utils/instance_specific_extensions.h:109-116 | the exact counts survive a set exactly unless null is set over a live slot |
| Extensions.NullOverLive | systemc-2.3.0_modified/src/tlm_utils/instance_specific_extensions.h:109-116 | such a state is reached: one set and one null over it leave a use count that is too high |
| Extensions.ClearedGood | systemc-2.3.0_modified/src/tlm_utils/instance_specific_extensions.h:267-274 | a container whose count reaches zero is empty, unattached and back in the pool |
| Extensions.ClearedView | systemc-2.3.0_modified/src/tlm_utils/instance_specific_extensions.h:138-154 | clearing changes only the row of this accessor on this transaction |
| Extensions.OneOwner | systemc-2.3.0_modified/src/tlm_utils/instance_specific_extensions.h:196-210 | no container serves two transactions |
| Fifo.FifoChannel.FifoWrite | examples/producer_consumer/src/fifo.cc:21-29 | the ring holds what it held and then the character |
| Fifo.FifoChannel.FifoRead | examples/producer_consumer/src/fifo.cc:31-40 | the oldest character is taken off the ring |
| Fifo.StepKeeps | examples/producer_consumer/src/fifo.cc:21-40 | under every interleaving a blocked thread waits for what is still the case, a woken one finds what it was woken for, and written is read followed by the ring |
| Fifo.Run | examples/producer_consumer/src/fifo.cc:21-40 | in every state of every run the ring is well formed, the waits are justified, and written is read followed by the ring |
| Fifo.Delivered | examples/producer_consumer/src/producer.cc:10-38 | in every run nothing is lost, repeated or reordered, and what is read is a prefix of the endlessly repeated source string |
| Fifo.NoDeadlock | examples/producer_consumer/src/consumer.cc:10-28 | the threads are never both blocked, and a step is always possible |
| Fifo.WokenByTheOther | examples/producer_consumer/src/fifo.cc:21-40 | no wake-up is lost: the next access of the other thread wakes a blocked one |
| Fifo.ProducerTurn | examples/producer_consumer/src/fifo.cc:20-28 | a turn of the producer writes the next character of the source exactly if it acts with fewer than ten unread or was woken; it blocks exactly at ten, and wakes a blocked consumer |
| Fifo.ConsumerTurn | examples/producer_consumer/src/fifo.cc:30-39 | a turn of the consumer reads the oldest unread character exactly if it acts and there is one or was woken; it blocks exactly if there is none, and wakes a blocked producer |
| Fifo.ClockTurn | examples/producer_consumer/src/consumer.cc:15-28 | a tick is one nanosecond, after which one of the threads runs |
| Phases.ExecuteKeeps | examples/random_scheduler/ex3/top.cpp:17-60 | a segment run in any order keeps the three threads in the same phase |
| Phases.DeltaKeeps | examples/random_scheduler/ex3/top.cpp:17-60 | a delta comes only when all three have run, and then wakes all three |
| Phases.SchedulesArePhased | examples/random_scheduler/ex3/top.cpp:17-60 | every schedule ends with permutations of {1,2,3}, {4,5,6} and {7,8,9} in the register, and none gets stuck before |
| Phases.EachWritesItsOwn | examples/random_scheduler/ex3/top.cpp:17-60 | the threads put 1, 4, 7 and 2, 5, 8 and 3, 6, 9 into the register, one entry at each turn |
| Phases.PhasedIsPossible | examples/random_scheduler/ex3/top.cpp:17-60 | conversely every such register is the outcome of a schedule |
| Phases.Register.Segment | examples/random_scheduler/ex3/top.cpp:17-30 | the entry is appended to the register behind the shared index |
| Phases.CodeInjective | examples/random_scheduler/ex3/sweep_ex3.cpp:10-11 | the execution orders are numbered without repetition below 216 |
| Phases.BookBound | examples/random_scheduler/ex3/sweep_ex3.cpp:109-150 | a book without duplicates never has more than 216 orders, and with 216 it has all of them |
| Phases.DuplicatedExe | examples/random_scheduler/ex3/sweep_ex3.cpp:27-42 | the nested loops tell exactly whether the order is in the book |
| Phases.Sweep | examples/random_scheduler/ex3/sweep_ex3.cpp:70-150 | the book holds exactly the orders seen so far, each once, in the order of first appearance; without a limit the sweep goes on as long as there are executions and stops with the first after which all 216 were seen |
| Phases.CollectedIsBook | examples/random_scheduler/ex3/sweep_ex3.cpp:109-150 | collecting keeps the book free of duplicates and complete |
| Prefix.Prefix2Inorder | mag/utils.cc:102-208 | the recursive reader on a stream refines the conversion function: same success, text and rest of the input |
| Prefix.Name | mag/utils.cc:186-196 | the loop over a name takes everything up to the next blank or the end, and the blank with it |
| Prefix.SpelledConverts | mag/utils.cc:102-208 | every formula in prefix form, however it is spaced, is converted to its infix form, and nothing behind it is consumed but one blank that ends a name |
| Prefix.BinaryConverts | mag/utils.cc:117-158 | each of U u V v & \| i e between convertible operands gives the parenthesised text with U u V v && \|\| -> <-> |
| Prefix.ConvertUnary | mag/utils.cc:160-170 | each of ! X G F in front of a convertible operand gives the parenthesised text |
| Prefix.OthersRefused | mag/utils.cc:196-208 | any other symbol, and the end of the input, is a parse error |
| Prefix.UntilExample | mag/utils.cc:117-158 | `U p0 p1` is converted to `(p0 U p1)` |
| Prefix.ConvertedIsSpelled | mag/utils.cc:102-208 | conversely whatever is converted is the spelling of a formula |
| Prefix.InfixReadsBack | mag/utils.cc:127-170 | the parenthesised output reads back, under an infix grammar, as the same formula |
| Prefix.PrefixToInfix | mag/utils.cc:102-208 | the whole way: prefix text, conversion, infix reader, same formula |
| Prefix.EveryFormulaConverts | mag/utils.cc:102-208 | every formula over these operators and names led by p is what some prefix text is converted to |

## Left out

- CharRef.RefDecodes: of decimal references with a value from 2^32 on only the wrapping scan is given (CharRef.ScanBack), no closed form; the hexadecimal ones are in CharRef.HexKeepsEight. The reference decoder takes neither. With DEBUG, TIXMLASSERT (`mag/tinyxml2.cc:389`) fails on the eighth hexadecimal digit already; the model is of the code without DEBUG.
- Fidelity.ComesBackIff: leaves out plain text at top level when indenting from depth 0, where the line ends printed between nodes join the text and may be taken for one with a carriage return of it; what comes back there is in Denotation.ReadBack all the same.
- Documents.ParsingUndoesPrinting: is for trees whose tags can be read: legal names, distinct attribute names, and no terminator inside a comment, CDATA section, declaration or unknown; the printer checks none of this.
- Dom.Document.InsertEndChild: does not say what happens when a node is inserted under itself or below one of its descendants; the code would make a cycle.
- ControlSystem.InvAt: replaces rates and probabilities by choices of positive probability and delays of at least a time unit; nothing quantitative is claimed.
- Extensions.Registry.ContainerFor: takes the number of accessors and of extension ids as fixed, that is, all are registered before the first access; destroying a transaction is not modelled.
- Dom.Document.NewNode: gives a node its value for good, as SetValue is not modelled; of attributes, the heap model has the names only.
- FailedParse.ParseFailing: is about failures with an error code; after a null dereference (RepeatedAttributes.ParseCrashesIff) there is no state to speak of.
- RepeatedAttributes.ParseCrashesIff: is about documents that process entities, which is the default; without, no attribute value is decoded in this way.
- XMLHandle wrappers, typed attribute and text queries, ShallowClone and ShallowEqual: easy members.
- File access, FILE output and the formatting through vfprintf, sscanf and snprintf: the printer's output is a growing string.
- The clock tick, the rewards and the monitors of the control system: they only observe.
- fifo_reset: never called; it could strand a blocked writer.
- The command line, the runs of ex3 as processes and the text file between them: the sweep takes the sequence of recorded executions as an argument.
- Generated sources under ins/ and gen/, and the C++ text templates of MAG (aspects, observers, monitors).
- The SystemC kernel, tlm_array and tlm_generic_payload: a minimal model of evaluate, delta and timed steps, and a map from transactions to containers.

# Verified models of the drone's core

Dafny models of the parts of the repository that are hardest to get right, and proofs of what
they are for:

- **The JSON library** that loads the configuration. `JsonValue` holds the value tree and the
  ordered map behind arrays and objects, `JsonOrder` the comparison of trees, `JsonArray` the
  mutations of an array, `JsonNumber`, `JsonUtf8` and `JsonString` the texts of scalars.
  `JsonReader` is the recursive-descent reader as a class with its cursor, node stack and
  error list; `JsonToken` and `JsonGrammar` say without that state what it computes.
  `JsonFastWriter` and `JsonStyledWriter` are the compact and the pretty writer. The round
  trips go through token sequences: both writers spell the tokens of the normalised tree
  (`JsonSpelling`, `JsonFastWriter`, `JsonLayout`), and the reader depends on the tokens only
  (`JsonLexeme`), which `JsonRoundTrip`, `JsonLayout` and `JsonParsed` put together. Tokens
  determine the tree (`JsonInjective`). `JsonNumeral` and `JsonComment` say which texts are
  numbers and comments without the functions of the lexer, and `JsonLines` how the pretty text
  is broken into lines and indented. `JsonQuirks` shows some of what the reader accepts beyond
  JSON.
- **The frame decoders.** `Frames` splits a byte stream into length-prefixed frames, `Wire`
  presents the system calls under a script that may transfer any amount, interrupt, block or
  break. `MessageIO` (drone and base) and `MultiWii` (flight board) are resumable receivers
  and their senders.
- **The binary log.** `VariableLog` is the buffered writer, the map file and the archive,
  `LogReader` the reader that decodes them, and `LogSession` a session of any number of
  loggers from construction to reading.
- **The watchdog.** `Watchdog` has the checking loop and the calls, `WatchdogRuns` every
  interleaving of their accesses to a watchdog.
- **The flight machine.** `Pid`, `Flight` and `Drone` model whole calls of the two loops,
  `FlightThreads` their single atomic accesses in every interleaving, and `FlightExclusion`
  the interleavings in which orders exclude updates, or updates and sending.

Conventions. JSON text is a `string` whose characters stand for bytes. Doubles are reals
whose printing and scanning are parameters (`DoubleText`, `ScanDouble`), so the round trips
are stated for trees without doubles. Clock readings, results of system calls, estimates of
position and velocity and the protobuf codec are parameters or inputs of the models. 32- and
64-bit limits and wrap-around are written out. The build target is 32-bit ARM, little-endian,
where `char` is unsigned. The flight machine's accesses are taken to be sequentially
consistent, which is the default of the atomics used.

## What the proofs turned up

- `Value::operator<` is a strict total order on trees whose maps have fewer than 2^31 entries
  (`JsonOrder.Trichotomy`, `JsonOrder.Transitive`). Beyond, the wrapped size difference breaks
  it in two ways: asymmetry fails exactly where two sizes differ by 2^31 modulo 2^32
  (`JsonOrder.BothBelowExactly`), and transitivity exactly as `JsonOrder.TransitiveExactly`
  says, so that three arrays can be below each other in a circle (`JsonOrder.SizesInACircle`).
  Maps this large do not fit the address space of the 32-bit target.
- The reader's nesting limit is the only way in which a written tree fails to be read back
  (`JsonRoundTrip.CompactRoundTrip`).
- The number `-` alone is read as the integer 0 (`JsonQuirks.MinusAlone`). After a comment
  behind a member of an object, though not behind an element of an array, the reader accepts
  any token but a closing brace as the separator (`JsonQuirks.MemberSeparatorOrComment`,
  `JsonQuirks.ElementSeparator`, `JsonQuirks.ColonForComma`). An apostrophe opens a comment as
  a slash does (`JsonQuirks.ApostropheComment`). A closing brace after a comma is accepted
  exactly if the member before the comma has the empty name
  (`JsonQuirks.ClosingBraceAfterComma`, `JsonQuirks.CommaAfterNameless`). Leading zeros and text
  behind the root are accepted (`JsonQuirks.ZerosAndRest`), and so is a comment that is not
  closed if the document ends with a slash (`JsonComment.OpenComment`). The escape of a low
  surrogate by itself is decoded to bytes that are not UTF-8, and behind that of a high one any
  escape passes for the low one (`JsonString.LoneLowSurrogate`, `JsonString.AnySecondHalf`).
  `OurReader::decodeNumber` negates the smallest integer in signed arithmetic, which is
  undefined; the model follows the same function of the `Reader` class.
- Shrinking `resize` fails its own assertion, and `removeIndex` deletes more than one element,
  exactly where a sparse array has a hole before its new end
  (`JsonArray.MutableValue.Resize`, `JsonArray.ShrinkSparse`,
  `JsonArray.MutableValue.RemoveIndex`, `JsonArray.RemoveFromSparse`).
- A log with a `float` field is never read back: `np.float` is a double
  (`LogReader.ReadBack`). The data of every logging session but the first is not archived
  (`VariableLog.ArchiveIsComplete`, `VariableLog.TwoSessions`). A flush that fails and is tried
  again repeats the bytes of the first attempt, so that the file is spoiled exactly if there
  were any (`VariableLog.FlushTwice`, `VariableLog.SpoiledFile`).
- A watchdog counts from the check before `ok`, so a long sleep can kill right after `ok`
  (`WatchdogRuns.KillRightAfterOk`); a kill comes at least the duration after `ok`, less a sleep
  that was over and not yet counted (`WatchdogRuns.KillAfterReset`). An `ok` after a check has
  read the count does not stop that check from killing (`WatchdogRuns.KillInSpiteOfOk`). Where
  a check has found a watchdog running and `stop` comes before the comparison, the check kills
  unless `start` or `ok` has zeroed the count between its increment and its read of the count,
  and only then it does not (`WatchdogRuns.StopKillsExactly`, `WatchdogRuns.KillDuringStop`).
- The header of the flight controller says that its two threads need no lock. A store that the
  updating thread has pending while the drone is disarmed, or disarmed and armed again, leaves
  the mode VelocityControl with the flag clear, flies without a take-off order, or arms with
  the throttle open (`FlightThreads.StrayStore`, `FlightThreads.FlyingWithoutTakeOff`,
  `FlightThreads.OpenThrottle`). Exactly such stores cause these states
  (`FlightThreads.FlagMatchesMode`, `FlightThreads.FlyingHistory`, `FlightThreads.IdleExactly`).
  If orders and updates exclude each other, none of these states occurs between the calls
  (`FlightExclusion.ExclusiveIsSafe`, `FlightExclusion.NothingStray`), but the flight board may
  still be told to arm with the throttle open: `sendRC` reads the channels before the flag, and
  a disarm and an arm order may come in between (`FlightExclusion.OpenFrame`). A frame shows the
  channels as they are when its flag is read exactly if no order has idled an open one after it
  was read (`FlightThreads.FrameIsCurrent`). If orders exclude sending as well, every frame is
  that of a safe state (`FlightExclusion.FramesAreSafe`).
- The positions that the base sends are stored (`Drone.Loops.Receive`), but no controller is
  given them (`Flight.FlightController.SteerPosition`).
- Until its first recorded error the throttle block outputs its configured centre without
  clamping it (`Flight.FlightController.CommandInClamps`, `Flight.OpenCentre`).

## Model

| member | source | states |
|---|---|---|
| `JsonValue.KeyLessTotal` | cdrone/json/jsoncpp.cpp:2786-2798 | of two keys exactly one is below the other unless they are equal |
| `JsonValue.KeyLessTransitive` | cdrone/json/jsoncpp.cpp:2786-2798 | the key order is transitive, so that with totality the map's order is a strict total one |
| `JsonValue.BytesLessExactly` | cdrone/json/jsoncpp.cpp:2786-2798 | a string is below another exactly if the first byte in which they differ is, or if it is a proper prefix |
| `JsonValue.LowerBound` | cdrone/json/jsoncpp.cpp:3477-3491 | all keys before the position are below the key sought and the one at it is not |
| `JsonValue.LowerBoundUnique` | cdrone/json/jsoncpp.cpp:3477-3491 | in a sorted map only one position satisfies that |
| `JsonValue.PutSorted` | cdrone/json/jsoncpp.cpp:3477-3491 | insertion keeps the keys strictly increasing and brings in nothing but the new entry |
| `JsonOrder.EqualIsIdentity` | cdrone/json/jsoncpp.cpp:3095-3138 | `operator==` holds of identical trees and of no others |
| `JsonOrder.LessExactly` | cdrone/json/jsoncpp.cpp:3042-3087 | what `operator<` is on every pair of types: null first, the types in the order of their tags, numbers by value, strings by bytes, false before true |
| `JsonOrder.MapLessExactly` | cdrone/json/jsoncpp.cpp:3076-3082 | maps of fewer than 2^31 entries compare by size, and with the same size by the first entry in which they differ |
| `JsonOrder.PairLessExactly` | cdrone/json/jsoncpp.cpp:3076-3082 | entries compare by key, and with the same key by value |
| `JsonOrder.Trichotomy` | cdrone/json/jsoncpp.cpp:3042-3138 | on trees with fewer than 2^31 entries a map exactly one of a<b, a==b and b<a holds |
| `JsonOrder.Transitive` | cdrone/json/jsoncpp.cpp:3042-3087 | `operator<` is transitive on those trees |
| `JsonOrder.BothBelowExactly` | cdrone/json/jsoncpp.cpp:3076-3082 | two maps with small children are each below the other just when their sizes differ by 2^31 modulo 2^32, where the size difference overflows |
| `JsonOrder.TransitiveExactly` | cdrone/json/jsoncpp.cpp:3076-3082 | of three such maps, each below the next, the first is below the last exactly if the wrapped size differences add up without overflow, or overflow to zero with the entries in order |
| `JsonOrder.SizesInACircle` | cdrone/json/jsoncpp.cpp:3076-3082 | three arrays of nulls of which each is below the next and the last below the first, though no two are below each other |
| `JsonArray.PutLookup` | cdrone/json/jsoncpp.cpp:3477-3491 | assignment through an index changes what is found at that index and nothing else |
| `JsonArray.EraseLookup` | cdrone/json/jsoncpp.cpp:3459-3475 | erasing a key makes it missing and changes nothing else |
| `JsonArray.DenseFound` | cdrone/json/jsoncpp.cpp:3411-3432 | an array has no holes exactly when every index below its size is found |
| `JsonArray.MutableValue.At` | cdrone/json/jsoncpp.cpp:3500-3511 | read-only indexing presents the map as a sequence with nulls in the holes and behind the end, and throws on values other than null and arrays |
| `JsonArray.MutableValue.Slot` | cdrone/json/jsoncpp.cpp:3477-3491 | indexing turns null into an array, creates a missing element as null, and throws on other types without a change |
| `JsonArray.SlottedView` | cdrone/json/jsoncpp.cpp:3477-3491 | creating an element is invisible in a hole and pads with nulls past the end |
| `JsonArray.MutableValue.Append` | cdrone/json/jsoncpp.cpp:3624 | append pushes onto the sequence and keeps a dense array dense; where the size has wrapped to 0 it overwrites the first element |
| `JsonArray.MutableValue.Resize` | cdrone/json/jsoncpp.cpp:3459-3475 | growing pads with nulls; shrinking truncates and succeeds exactly if the new last element exists, so always on dense arrays, which stay dense; what happens otherwise is stated too |
| `JsonArray.CutView` | cdrone/json/jsoncpp.cpp:3468-3473 | the erasing loop leaves the truncated sequence, or a shorter one exactly if there is a hole at the new end |
| `JsonArray.EraseNext` | cdrone/json/jsoncpp.cpp:3469-3472 | one step of the erasing loop removes exactly the next index |
| `JsonArray.MutableValue.RemoveIndex` | cdrone/json/jsoncpp.cpp:3682-3703 | returns the element and deletes it from the sequence, keeping a dense array dense; removing a last element behind a hole removes the hole as well; a missing element changes nothing |
| `JsonArray.ShiftNext` | cdrone/json/jsoncpp.cpp:3694-3697 | one step of the shifting loop moves one element down and fills a hole it meets |
| `JsonArray.RemovedView` | cdrone/json/jsoncpp.cpp:3694-3701 | after the loop and the final erase the sequence lacks just the removed element, or also the holes before it |
| `JsonArray.ShrinkSparse` | cdrone/json/jsoncpp.cpp:3459-3475 | two assignments make an array of null, a hole and true, on which `resize(2)` leaves fewer than two elements and fails |
| `JsonArray.RemoveFromSparse` | cdrone/json/jsoncpp.cpp:3682-3703 | `removeIndex(2)` on that array leaves fewer than two elements as well |
| `JsonNumber.UIntToString` | cdrone/json/jsoncpp.cpp:167-173 | writing digits backwards into a buffer leaves canonical decimal text and a NUL, uses at most 21 characters and touches no others |
| `JsonNumber.PrintUInt` | cdrone/json/jsoncpp.cpp:4270-4276 | with the 25-character buffer every 64-bit number leaves at least four characters free |
| `JsonNumber.ValueToString` | cdrone/json/jsoncpp.cpp:4254-4268 | every signed 64-bit integer, the smallest included, is printed as its decimal text |
| `JsonNumber.UIntValueToString` | cdrone/json/jsoncpp.cpp:4270-4276 | every unsigned 64-bit integer is printed as its decimal text |
| `JsonNumber.DecimalDenotes` | cdrone/json/jsoncpp.cpp:167-173 | the decimal text denotes its number |
| `JsonNumber.DecimalIsCanonical` | cdrone/json/jsoncpp.cpp:167-173 | it is the only digit string without leading zeros that does |
| `JsonNumber.DecodeInteger` | cdrone/json/jsoncpp.cpp:783-823 | the guarded 64-bit accumulator never overflows; an integer results exactly for digit strings whose denoted magnitude is within the limit, it is the denoted one, and its type follows its magnitude |
| `JsonNumber.IntegerRoundTrip` | cdrone/json/jsoncpp.cpp:783-823 | decoding the printed text of any 64-bit integer gives it back |
| `JsonUtf8.EncodeDecode` | cdrone/json/jsoncpp.cpp:122-148 | the decoder of section 3 of RFC 3629 inverts the encoder on every code point, and refuses just the surrogates when it is strict |
| `JsonUtf8.EncodeInjective` | cdrone/json/jsoncpp.cpp:122-148 | different code points up to 0x10FFFF have different encodings |
| `JsonUtf8.KnownEncodings` | cdrone/json/jsoncpp.cpp:122-148 | the encoder gives the bytes of examples of section 7 of RFC 3629, one for each length |
| `JsonString.ValueToQuotedStringN` | cdrone/json/jsoncpp.cpp:4408-4469 | the escaping loop and its shortcut for plain text give the quoted string |
| `JsonString.DecodeString` | cdrone/json/jsoncpp.cpp:1890-1999 | the unescaping loop with its unicode escapes computes the decoder used in the grammar, errors included |
| `JsonString.DecodeStep` | cdrone/json/jsoncpp.cpp:1899-1941 | a plain character stands for itself, each of the eight short escapes for its character, and any other escape is an error |
| `JsonString.HexValueExactly` | cdrone/json/jsoncpp.cpp:1978-1999 | hexadecimal digits are read in either case and nothing else is |
| `JsonString.EscapedHasNoControl` | cdrone/json/jsoncpp.cpp:4408-4469 | the escaped text of any string is free of control characters, as section 7 of RFC 8259 asks |
| `JsonString.DecodeEscaped` | cdrone/json/jsoncpp.cpp:1890-1941 | decoding inverts escaping wherever the escaped text stands |
| `JsonString.QuoteRoundTrip` | cdrone/json/jsoncpp.cpp:4408-4469 | decoding a quoted string gives the original bytes, NULs and control characters included |
| `JsonString.EscapedCodePoint` | cdrone/json/jsoncpp.cpp:1943-1999 | the escape of section 7 of RFC 8259, a surrogate pair above 0xFFFF, decodes to the UTF-8 of its code point |
| `JsonString.LoneLowSurrogate` | cdrone/json/jsoncpp.cpp:1943-1970 | the escape of a low surrogate by itself decodes to three bytes, which the strict decoder of RFC 3629 refuses |
| `JsonString.AnySecondHalf` | cdrone/json/jsoncpp.cpp:1943-1970 | behind the escape of a high surrogate the low ten bits of any escape are taken for the second half |
| `JsonRoundTrip.QuotedToken` | cdrone/json/jsoncpp.cpp:1656-1667 | before any suffix the lexer takes exactly the quoted text, and it decodes to the original bytes |
| `JsonToken.Scan` | cdrone/json/jsoncpp.cpp:1430-1528 | a token starts where it should, is not empty and ends inside the document |
| `JsonToken.ReadToken` | cdrone/json/jsoncpp.cpp:1430-1528 | every token consumes input or is the end of the stream |
| `JsonToken.SkipsSpaces` | cdrone/json/jsoncpp.cpp:1530-1538 | the cursor skips spaces, tabs, carriage returns and line feeds, all there are and nothing else |
| `JsonToken.NextToken` | cdrone/json/jsoncpp.cpp:1420-1428 | skipping comments ends, at a token that is no comment |
| `JsonToken.Recover` | cdrone/json/jsoncpp.cpp:2011-2022 | skipping to a token ends, inside the document |
| `JsonToken.RecoverIs` | cdrone/json/jsoncpp.cpp:2011-2022 | it ends behind the first token that is the one sought or the end of the stream |
| `JsonGrammar.ReadValue` | cdrone/json/jsoncpp.cpp:1318-1418 | on every text a value is read, fails or throws, with the cursor inside the document and past where it started if a value was read |
| `JsonGrammar.ReadElements` | cdrone/json/jsoncpp.cpp:1743-1779 | the same of the loop over array elements, which ends |
| `JsonGrammar.ReadMembers` | cdrone/json/jsoncpp.cpp:1681-1741 | the same of the loop over object members, which ends |
| `JsonReader.OurReader.ReadString` | cdrone/json/jsoncpp.cpp:1656-1667 | the cursor ends where the token function says, and the result tells whether the closing quote was found |
| `JsonReader.OurReader.ReadCStyleComment` | cdrone/json/jsoncpp.cpp:1605-1612 | the loop with its look-ahead stops where the token function says |
| `JsonReader.OurReader.ReadCppStyleComment` | cdrone/json/jsoncpp.cpp:1614-1628 | the same for line comments and the three line ends |
| `JsonReader.OurReader.ReadNumber` | cdrone/json/jsoncpp.cpp:1630-1654 | the same for the integer, fraction and exponent of a number |
| `JsonNumeral.ScanLongest` | cdrone/json/jsoncpp.cpp:1630-1654 | where a number begins the lexer takes the longest text there that is an optional minus, digits, a point with digits and an exponent with sign and digits |
| `JsonNumeral.ScanNumeral` | cdrone/json/jsoncpp.cpp:1630-1654 | in front of a character that cannot continue it such a text is taken exactly |
| `JsonNumeral.ReadsNumeral` | cdrone/json/jsoncpp.cpp:1781-1877 | there it is read as the integer its digits denote, if it has only those and they are within the limits, otherwise as the double that is scanned from it, and fails exactly if there is none |
| `JsonNumeral.IntegerNumeral` | cdrone/json/jsoncpp.cpp:783-823 | which of these texts denote integers, and which |
| `JsonComment.ScanComment` | cdrone/json/jsoncpp.cpp:1551-1628 | a comment up to its first star and slash, or up to its line end, is one token |
| `JsonComment.OpenComment` | cdrone/json/jsoncpp.cpp:1605-1612 | a comment that is not closed is an error, unless the last character of the document is a slash behind its beginning |
| `JsonComment.CommentSkipped` | cdrone/json/jsoncpp.cpp:1420-1428 | a comment in front of a token is skipped with the white space around it |
| `JsonReader.OurReader.ScanToken` | cdrone/json/jsoncpp.cpp:1430-1528 | the dispatch over the first character reads the token of the token function and leaves the cursor at its end |
| `JsonReader.OurReader.ReadToken` | cdrone/json/jsoncpp.cpp:1430-1528 | the same with leading white space and at the end of the document |
| `JsonReader.OurReader.SkipCommentTokens` | cdrone/json/jsoncpp.cpp:1420-1428 | the loop reads the next token that is no comment |
| `JsonReader.OurReader.RecoverFromError` | cdrone/json/jsoncpp.cpp:2011-2022 | recovery moves the cursor as the token function says and keeps the errors recorded before it |
| `JsonReader.OurReader.DecodeNumber` | cdrone/json/jsoncpp.cpp:1781-1877 | an integer token gives its integer, another what the scanner of doubles finds, and a failure records one error |
| `JsonReader.OurReader.ReadValue` | cdrone/json/jsoncpp.cpp:1318-1418 | for every document the state afterwards is the grammar's: cursor, value on top of the stack, stack below it restored, one error recorded exactly on failure |
| `JsonReader.OurReader.ReadArray` | cdrone/json/jsoncpp.cpp:1743-1779 | the same of arrays, the child pushed and popped for every element |
| `JsonReader.OurReader.ReadObject` | cdrone/json/jsoncpp.cpp:1681-1741 | the same of objects, repeated names included |
| `JsonReader.OurReader.Parse` | cdrone/json/jsoncpp.cpp:1271-1316 | parse throws one of two exceptions or returns with only the root on the stack; it returns true exactly when no error is recorded, and the root is what the grammar says |
| `JsonCanonical.NormalIsCanonical` | cdrone/json/jsoncpp.cpp:4523-4534 | normalising makes arrays dense and types integers by magnitude |
| `JsonCanonical.NormalKeeps` | cdrone/json/jsoncpp.cpp:4500-4534 | normalising keeps every number and other scalar, the size and the elements of an array, nulls for its holes, and the names and values of an object |
| `JsonCanonical.CanonicalIsNormal` | cdrone/json/jsoncpp.cpp:4523-4534 | and changes nothing in a tree of that form |
| `JsonFastWriter.FastWriter.WriteValue` | cdrone/json/jsoncpp.cpp:4496-4548 | the recursive writer appends the texts of the tokens of the normalised tree |
| `JsonFastWriter.FastWriter.Write` | cdrone/json/jsoncpp.cpp:4488-4494 | the document is the compact text of the tree and the line feed |
| `JsonFastWriter.TokensOrderly` | cdrone/json/jsoncpp.cpp:4496-4548 | no two tokens of a tree run together when written without space |
| `JsonSpelling.ScanProper` | cdrone/json/jsoncpp.cpp:1430-1528 | at the text of a token the lexer reads that token, numbers needing a delimiter behind them |
| `JsonSpelling.RenderLexes` | cdrone/json/jsoncpp.cpp:1430-1528 | text of properly separated tokens with white space between them lexes to those tokens |
| `JsonLexeme.ReadsTokens` | cdrone/json/jsoncpp.cpp:1318-1418 | wherever the tokens of a canonical tree stand, the reader reads the tree and stops behind them, or throws exactly if its height exceeds the stack limit |
| `JsonRoundTrip.CompactLexes` | cdrone/json/jsoncpp.cpp:4496-4548 | the compact text lexes to the tokens of the normalised tree |
| `JsonRoundTrip.CompactRoundTrip` | cdrone/json/jsoncpp.cpp:4488-4548 | for every double-free tree, with member names shorter than 2^30, parsing the compact text gives the normalised tree if its height is within the limit, and throws otherwise |
| `JsonRoundTrip.CompactIsStable` | cdrone/json/jsoncpp.cpp:4496-4548 | writing the normalised tree gives the same text again |
| `JsonRoundTrip.CompactInjective` | cdrone/json/jsoncpp.cpp:4496-4548 | two trees, however deep, have the same compact text exactly if they have the same normalised tree |
| `JsonInjective.TokensInjective` | cdrone/json/jsoncpp.cpp:4496-4548 | the tokens of a canonical tree and what follows them determine both |
| `JsonQuirks.ElementSeparator` | cdrone/json/jsoncpp.cpp:1763-1776 | an array goes on after an element exactly with a comma behind any comments |
| `JsonQuirks.ValueAccepted` | cdrone/json/jsoncpp.cpp:1318-1418 | what is read as a value begins with one of seven kinds of tokens, within the stack limit |
| `JsonQuirks.MemberAccepted` | cdrone/json/jsoncpp.cpp:1681-1741 | what is read as a member is a string that decodes, a colon and a value |
| `JsonQuirks.MemberSeparatorOrComment` | cdrone/json/jsoncpp.cpp:1726-1738 | an object goes on after a member exactly with a comma, or with a comment and any token behind it but a closing brace |
| `JsonQuirks.ColonForComma` | cdrone/json/jsoncpp.cpp:1726-1738 | a document in which a colon behind a comment separates two members is read as both |
| `JsonQuirks.MinusAlone` | cdrone/json/jsoncpp.cpp:783-823 | a minus sign without digits is read as the integer zero |
| `JsonQuirks.ApostropheComment` | cdrone/json/jsoncpp.cpp:1430-1528 | a document that begins with a comment opened by an apostrophe is read as the value behind it |
| `JsonQuirks.ClosingBraceAfterComma` | cdrone/json/jsoncpp.cpp:1692-1693 | where a member should begin a closing brace is accepted exactly if the name of the last member is empty, or there was none |
| `JsonQuirks.CommaAfterNameless` | cdrone/json/jsoncpp.cpp:1692-1693 | a document with a comma before the closing brace that is read as its one member, whose name is empty |
| `JsonQuirks.ZerosAndRest` | cdrone/json/jsoncpp.cpp:1288-1316 | a document with leading zeros and text behind the root is read as its number |
| `JsonStyledWriter.StyledWriter.IsMultilineArray` | cdrone/json/jsoncpp.cpp:5171-5196 | decides the layout rule, and leaves the cache with one text for every element or empty |
| `JsonStyledWriter.StyledWriter.FillCache` | cdrone/json/jsoncpp.cpp:5180-5194 | every element is cached once, nothing is printed meanwhile, and the line length is that of the cached texts |
| `JsonStyledWriter.StyledWriter.WriteArrayValue` | cdrone/json/jsoncpp.cpp:5124-5169 | an array is printed by the layout rule whether its elements come from the cache or not |
| `JsonStyledWriter.StyledWriter.WriteMultiLine` | cdrone/json/jsoncpp.cpp:5131-5155 | the local decision to use the cache survives nested arrays overwriting it, and the indentation is restored |
| `JsonStyledWriter.StyledWriter.WriteValue` | cdrone/json/jsoncpp.cpp:5065-5122 | a value is printed as laid out, or pushed to the cache as its compact text; the indentation is restored |
| `JsonStyledWriter.StyledWriter.Write` | cdrone/json/jsoncpp.cpp:5050-5064 | the whole text is the layout of the normalised tree |
| `JsonLayout.LayoutSpaced` | cdrone/json/jsoncpp.cpp:5065-5169 | the layout consists of the tree's tokens with only white space between them |
| `JsonLines.MultiLineExactly` | cdrone/json/jsoncpp.cpp:5171-5196 | an array is spread over several lines exactly if comments are kept, it has a container with children, three times its size reaches the right margin, or its text on one line does |
| `JsonLines.OneLineRendered` | cdrone/json/jsoncpp.cpp:5154-5167 | otherwise it is its elements' texts on one line, with the spaces of that style |
| `JsonLines.PrettyIndented` | cdrone/json/jsoncpp.cpp:5203-5220 | every line break is followed by the indentation once for each bracket open there, but for one the line begins by closing; with indentation there is a line break behind each comma and in front of the closing bracket if there is one behind the opening bracket, as in every object with members, and a space otherwise; and a bracket with a line break behind it, unless it is the first of all, begins its line |
| `JsonLayout.PrettyLexes` | cdrone/json/jsoncpp.cpp:5050-5228 | for every double-free value, white-space indentation and comment style the pretty text lexes to the same tokens as the compact text |
| `JsonLayout.PrettyRoundTrip` | cdrone/json/jsoncpp.cpp:5050-5228 | parsing the pretty text gives the normalised tree, or throws exactly if it is too high |
| `JsonParsed.ReadFits` | cdrone/json/jsoncpp.cpp:1318-1418 | whatever is read successfully is in normal form and within the stack limit |
| `JsonParsed.ParsedRoundTrip` | cdrone/json/jsoncpp.cpp:1271-1316 | for every document a double-free tree that was parsed is restored by writing and parsing it |
| `Frames.JoinSplit` | cdrone/wire/IO.cpp:59-104 | splitting a stream into frames loses nothing and yields whole frames |
| `Frames.SplitJoin` | cdrone/wire/IO.cpp:59-104 | a stream of frames and a partial one splits into exactly these |
| `Frames.SplitExtend` | cdrone/wire/IO.cpp:59-104 | bytes that arrive later only concern the partial frame |
| `Frames.SplitIsPrefix` | cdrone/wire/IO.cpp:59-104 | at any point of a stream of frames the frames split off are the first ones in order, and the rest joins what is left |
| `Wire.Source.ReadRetrying` | cdrone/wire/Serial.cpp:19-34 | an interrupted read is tried again and moves a prefix of the stream into the buffer, of at least one byte if the next event transfers one |
| `Wire.Sink.WriteFull` | cdrone/misc/utility.cpp:36-49 | for every script success means that everything was sent and failure that a prefix was, and it fails only if the wire breaks |
| `Wire.Sink.SerialWriteFull` | cdrone/wire/Serial.cpp:64-70 | the same of the serial line, where a write that would block fails too |
| `Wire.Sink.BaseWriteFull` | gobase/base/base.go:168-179 | the same of the base's loop in spite of its shadowed counter, over a `Write` that writes everything or returns an error |
| `MessageIO.IO.SendMessage` | cdrone/wire/IO.cpp:36-57 | success puts the length-prefixed message on the wire, failure a prefix of it and the end of the connection; it fails only on a connection that has ended or breaks |
| `MessageIO.BaseSendMessage` | gobase/base/base.go:181-197 | the base puts the same bytes on the wire, and fails only if it breaks |
| `MessageIO.EncodeIsFrame` | cdrone/wire/IO.cpp:43-56 | a message on the wire is one frame and carries the message |
| `MessageIO.IO.RecvMessage` | cdrone/wire/IO.cpp:59-104 | one call keeps delivered frames plus held bytes equal to the bytes consumed; it returns a message exactly when it completes a frame and delivers that frame; and it consumes bytes whenever the reads transfer some |
| `MessageIO.DeliveredIsPrefix` | cdrone/wire/IO.cpp:59-104 | the frames delivered are the first messages sent, once each, and all of them when nothing is lost or left |
| `MessageIO.ReceiveAll` | cdrone/wire/IO.cpp:59-104 | any number of calls under any script receives a prefix of the messages sent, all of them once everything is read, and a call for each byte suffices for that if the reads transfer something |
| `MessageIO.Converse` | gobase/base/base.go:168-197 | the base's sender and the drone's receiver under arbitrary scripts, a broken connection included, never lose a message before another, alter or repeat one; without a break and with enough reads every message arrives |
| `MultiWii.CommandFrameIsFrame` | cdrone/wire/MultiWii.cpp:21-30 | a command is one frame that shows its code and payload |
| `MultiWii.XorBit` | cdrone/wire/MultiWii.cpp:25-28 | a bit of what two bytes are folded into is set exactly if it is set in one of them only |
| `MultiWii.LastByteBit` | cdrone/wire/MultiWii.cpp:25-28 | a bit of the last byte of a frame is set exactly if it is set in an odd number of the bytes from the length through the payload |
| `MultiWii.ChecksumCancels` | cdrone/wire/MultiWii.cpp:25-28 | every bit is set in an even number of the bytes from the length through the checksum |
| `MultiWii.MultiWii.SendCommand` | cdrone/wire/MultiWii.cpp:21-30 | the frame built in the buffer is the command's and goes out whole, or in part if the line blocks or breaks |
| `MultiWii.MultiWii.FoldChecksum` | cdrone/wire/MultiWii.cpp:25-28 | the loop folds the body into its checksum in place |
| `MultiWii.MultiWii.Recv` | cdrone/wire/MultiWii.cpp:37-58 | one call keeps returned frames plus held bytes equal to the bytes consumed; a reply is returned exactly when its last byte arrives; and it consumes bytes whenever the reads transfer some |
| `MultiWii.RepliesArePrefix` | cdrone/wire/MultiWii.cpp:37-58 | the replies are the codes and payloads of the first commands sent |
| `MultiWii.ReceiveReplies` | cdrone/wire/MultiWii.cpp:37-58 | any number of calls under any script returns the commands in order, all of them once everything is read, and a call for each byte suffices for that if the reads transfer something |
| `VariableLog.Session.Register` | cdrone/logging/logging.cpp:122-134 | a logger gets the next number, an empty file and an entry in the map; the first of a session begins a new map |
| `VariableLog.Session.ArchiveAdd` | cdrone/logging/logging.cpp:65-90 | the copy loop copies the file, cut to its length modulo 2^32 |
| `VariableLog.Session.Pack` | cdrone/logging/logging.cpp:97-105 | the archive holds the map and the files from 0 to the first missing number |
| `VariableLog.Session.Unregister` | cdrone/logging/logging.cpp:136-146 | only the last logger's destruction packs the files |
| `VariableLog.ArchiveIsComplete` | cdrone/logging/logging.cpp:92-120 | the archive holds a session's data exactly if its numbers begin at zero, and otherwise none of it |
| `VariableLog.TwoSessions` | cdrone/logging/logging.cpp:92-146 | a run of two sessions of one logger with one record, of which the first is archived with its record and the second without data |
| `VariableLog.VariableLogger.Log` | cdrone/logging/logging.cpp:148-157 | the buffer holds the records not flushed and never overflows, an intact file stays so, the file is written only when the record would not fit, and no other logger's file is touched |
| `VariableLog.BytesAt` | cdrone/logging/logging.cpp:153-154 | each byte of the time in a record is its quotient by a power of 256, the lowest first |
| `VariableLog.LengthBytes` | cdrone/wire/IO.cpp:43-46 | the length in front of a message is such bytes, that of a map entry the same in the opposite order |
| `VariableLog.VariableLogger.Everything` | cdrone/logging/logging.cpp:148-171 | an intact file, which holds whole records, followed by the live buffer is every record in order, and no other file is |
| `VariableLog.VariableLogger.Flush` | cdrone/logging/logging.cpp:159-171 | for every script of writes how many bytes reach the file and whether all do; a completed flush empties the buffer into the file, a failed one leaves the buffer as it was behind the bytes written |
| `VariableLog.FlushTwice` | cdrone/logging/logging.cpp:159-171 | a flush that fails and is tried again leaves every record in the file exactly if the first attempt wrote nothing |
| `VariableLog.SpoiledFile` | cdrone/logging/logging.cpp:159-171 | a run in which a partial write before an error spoils the file |
| `VariableLog.VariableLogger.Destroy` | cdrone/logging/logging.cpp:136-146 | after destruction an intact file holds every record, and the last logger packs the files |
| `LogReader.ScalarRoundTrip` | data/logz/np_types.py:3-14 | a field written in its C++ type and read in numpy's type of that name is restored |
| `LogReader.IntegerBytes` | data/logz/np_types.py:3-14 | an integer field lies in memory as the bytes of its two's complement, the lowest first |
| `LogReader.SizesAgree` | data/logz/np_types.py:3-14 | the layouts have the same size exactly if no field is a `float`, and numpy's is the larger otherwise |
| `LogReader.StructRoundTrip` | data/logz/file.py:37-39 | a packed struct is restored field by field |
| `LogReader.ReadBack` | data/logz/file.py:46-58 | a non-empty file reads back as the records logged, times included, exactly if no field is a `float` |
| `LogReader.ProtobufIter.Next` | data/logz/proto.py:12-20 | the iterator takes the next length-prefixed message off its buffer, and stops, fails or takes a cut message at the end |
| `LogReader.ReadMap` | data/logz/file.py:33-40 | a map file of whole entries gives the mapping of each name, and one with a malformed entry is refused |
| `LogReader.LastOfName` | data/logz/file.py:40 | the last entry of a name is the one found |
| `LogReader.MapFileParses` | cdrone/logging/logging.cpp:42-63 | the entries the loggers write are the ones the reader's iterator finds |
| `LogReader.OpenArchive` | data/logz/file.py:22-58 | in an archive of any number of loggers every name leads to the records of its last logger, exactly if it has no `float` field |
| `LogSession.RunSession` | cdrone/logging/logging.cpp:122-171 | a session of any number of loggers, any interleaving of their calls, any order of their destruction and any script of partial writes ends in an archive in which the reader finds under every name what the last logger of that name was given, exactly if no field is a `float` |
| `LogSession.LogOne` | cdrone/logging/logging.cpp:148-157 | a call of one logger adds its record and leaves the others' buffers and files as they were |
| `LogSession.DestroyAll` | cdrone/logging/logging.cpp:136-146 | after the destruction of all loggers in any order the archive holds the map and the complete file of every logger |
| `Watchdog.Tick` | cdrone/controller/Watchdog.cpp:71-77 | ticks and the new carry account for the sleep and the old carry; there is at least one tick and the carry is at most an epoch |
| `Watchdog.EpochsRoundUp` | cdrone/controller/Watchdog.cpp:94 | the maximum is the duration in epochs, rounded up |
| `Watchdog.Watchdogs.Check` | cdrone/controller/Watchdog.cpp:66-89 | a round adds the ticks of its sleep to every count and kills for exactly the late watchdogs |
| `Watchdog.Watchdogs.CheckThread` | cdrone/controller/Watchdog.cpp:64-90 | over any rounds 50 ms times the ticks plus the carry is the time slept, and every count has grown by the ticks |
| `Watchdog.Watchdogs.Start` | cdrone/controller/Watchdog.cpp:92-95 | zeroes the count and sets the maximum of its own watchdog only |
| `WatchdogRuns.NextKeepsInv` | cdrone/controller/Watchdog.cpp:64-103 | every single access keeps the account of ticks and time since the check before the last reset |
| `WatchdogRuns.ClocksOfRun` | cdrone/controller/Watchdog.cpp:64-103 | the times in that account are those of the run |
| `WatchdogRuns.RoundIsCheck` | cdrone/controller/Watchdog.cpp:66-89 | undisturbed accesses do what a whole round does |
| `WatchdogRuns.TimeIsTicksAndCarry` | cdrone/controller/Watchdog.cpp:64-90 | in every interleaving the ticks and the carry, at most an epoch, account for all time elapsed |
| `WatchdogRuns.KillIsLate` | cdrone/controller/Watchdog.cpp:64-103 | a kill of a running watchdog comes at least its duration after the last check before the latest `start` or `ok` that came before the count was read |
| `WatchdogRuns.KillIsLateExactly` | cdrone/controller/Watchdog.cpp:64-103 | counted from the latest `start` or `ok` of all the duration has passed exactly if none came after the count was read |
| `WatchdogRuns.LateIsKilled` | cdrone/controller/Watchdog.cpp:83-84 | a check two epochs past the maximum since that earlier check kills |
| `WatchdogRuns.LateCheckKills` | cdrone/controller/Watchdog.cpp:83-88 | and such a check proceeds to that point |
| `WatchdogRuns.KillRightAfterOk` | cdrone/controller/Watchdog.cpp:97-99 | a run in which a kill follows `ok` with no time between |
| `WatchdogRuns.KillAfterReset` | cdrone/controller/Watchdog.cpp:64-103 | counted from the `start` or `ok` that the check has seen, a kill comes at least the duration later, less a sleep that was over and not counted at that time |
| `WatchdogRuns.KillInSpiteOfOk` | cdrone/controller/Watchdog.cpp:83-99 | a run in which `ok` after the read of the count does not prevent the kill |
| `WatchdogRuns.KillDuringStop` | cdrone/controller/Watchdog.cpp:84-103 | for every duration a run in which a watchdog that is being stopped kills in its first check |
| `WatchdogRuns.StoppedKillsExactly` | cdrone/controller/Watchdog.cpp:66-103 | a check that reads a maximum of zero kills exactly if neither `start` nor `ok` has zeroed the count between its increment and its read of the count |
| `WatchdogRuns.StoppedExactly` | cdrone/controller/Watchdog.cpp:83-103 | in the middle of a check the maximum is zero exactly if a `stop` has come there and no `start` after it |
| `WatchdogRuns.StopKillsExactly` | cdrone/controller/Watchdog.cpp:64-103 | both together: after a `stop` in the middle of it, a check kills exactly if the count was not zeroed between its increment and its read |
| `Pid.PID.Step` | cdrone/controller/PID.cpp:22-49 | the output is the control law in closed form over the errors recorded since the reset; a step within the delay is held and not recorded |
| `Pid.RecordedExactly` | cdrone/controller/PID.cpp:30-33 | a step counts exactly if the delay has passed since the last one that did |
| `Pid.Output` | cdrone/controller/PID.cpp:37-46 | that law stays within the clamps once an error is recorded |
| `Pid.OutputIsLaw` | cdrone/controller/PID.cpp:37-46 | strictly between the clamps the output is the weighted sum of the error, the sum of the earlier errors and the difference of the last two, plus the centre; at a clamp that sum lies at or beyond it |
| `Pid.FirstOutput` | cdrone/controller/PID.cpp:37-46 | the first output after a reset differs from the centre by the proportional and the derivative gain times the error |
| `Pid.SecondOutput` | cdrone/controller/PID.cpp:37-46 | what the second step adds, in terms of the two errors |
| `Pid.LaterOutput` | cdrone/controller/PID.cpp:37-46 | what every later step adds: the proportional gain weighs the difference of the errors, the integral gain the last error but one, the derivative gain the second difference |
| `Pid.ConstantError` | cdrone/controller/PID.cpp:37-46 | under a constant error each such step adds the integral gain times it |
| `Pid.PID.Reset` | cdrone/controller/PID.cpp:51-56 | a reset forgets all errors |
| `Flight.ObeySafely` | cdrone/controller/FlightController.cpp:30-78 | every order keeps the flag set exactly outside of Disarmed and the channels idle or in range |
| `Flight.UpdateSafely` | cdrone/controller/FlightController.cpp:140-226 | so does every update, which never arms or disarms |
| `Flight.FlightController.ObeyArm` | cdrone/controller/FlightController.cpp:30-36 | arms from Disarmed only, as the mode machine says |
| `Flight.FlightController.ObeyDisarm` | cdrone/controller/FlightController.cpp:38-44 | clears the flag and idles the channels from every mode |
| `Flight.FlightController.ObeyRaw` | cdrone/controller/FlightController.cpp:52-56 | enters the raw mode from TakeOff and the flying modes only |
| `Flight.FlightController.ObeyVelocity` | cdrone/controller/FlightController.cpp:58-64 | enters the velocity mode from those modes and then restarts all blocks but the height's at that time |
| `Flight.FlightController.ObeyPosition` | cdrone/controller/FlightController.cpp:66-78 | the same of the position mode |
| `Flight.FlightController.CommandInClamps` | cdrone/controller/FlightController.cpp:187-191 | the channels commanded are within the clamps exactly if the throttle has recorded an error or its centre is within them |
| `Flight.OpenCentre` | cdrone/controller/FlightController.cpp:187-191 | a configuration and calls up to an update within the delay that puts a throttle outside of the clamps on the channels |
| `Flight.FlightController.SteerVelocity` | cdrone/controller/FlightController.cpp:180-192 | which error each block is given in the velocity mode, and that their outputs go to the channels |
| `Flight.FlightController.SteerPosition` | cdrone/controller/FlightController.cpp:193-209 | the same of the cascade of the position mode |
| `Flight.FlightController.UpdateController` | cdrone/controller/FlightController.cpp:140-220 | what an update does in each mode: the error each of the six blocks is given in the two controlled modes, with roll, pitch and throttle from the outputs of their own blocks, the restart of the blocks at take-off and that they stay as they are in every other mode; the time limit of calibration; and that it throws exactly in the mode Arming |
| `Drone.ObeyUpdateArms` | cdrone/program/cdrone.cpp:57-106 | whether the drone is armed after a message depends only on what the message says about arming |
| `Drone.ObeyUpdateMode` | cdrone/program/cdrone.cpp:57-106 | the mode after a message, for each request and mode |
| `Drone.ArmedByMode` | cdrone/program/cdrone.cpp:23-147 | the calls leave the drone armed exactly if they leave it in a mode other than Disarmed |
| `Drone.LatestIs` | cdrone/program/cdrone.cpp:64-131 | the value of an input that a run ends with is what the latest call that stores one has stored, be it a value carried or a reset |
| `Drone.LatestNone` | cdrone/program/cdrone.cpp:64-131 | and the one at the start where no call stores any |
| `Drone.Loops.Perform` | cdrone/program/cdrone.cpp:23-147 | one whole call keeps the invariant, sends a frame exactly if it is to send one, and changes the flag, the mode and the inputs as it says; a step commands the raw channels, or steps the blocks of its mode |
| `Drone.Loops.Receive` | cdrone/program/cdrone.cpp:57-131 | a message switches the mode, then disconnects or stores its data: each input takes the value carried, else its reset value after a disarm request, else keeps its own |
| `Drone.Loops.Store` | cdrone/program/cdrone.cpp:108-131 | which of the inputs a message sets; the height comes with a velocity or a position |
| `Drone.Loops.Run` | cdrone/program/cdrone.cpp:23-147 | over every sequence of whole calls the invariant holds, the mode, the flag and all six inputs are those of the latest messages about them, and there is one frame for every sending call, which agrees with the calls before it and is idle, or in range with the drone in a flying mode |
| `Drone.Sends` | cdrone/program/cdrone.cpp:28-36 | the sending calls are numbered in order, each once |
| `FlightThreads.RunKeepsInv` | cdrone/controller/FlightController.cpp:30-64 | in every interleaving of single accesses only six modes are reached and every channel is idle or in range |
| `FlightThreads.NextKeepsInv` | cdrone/hardware/Skyline.cpp:28-51 | each access keeps that invariant |
| `FlightThreads.FlagHistory` | cdrone/hardware/Skyline.cpp:28-40 | the flag is set exactly if an arm order has set it and no disarm order has cleared it since |
| `FlightThreads.FramesFollowFlag` | cdrone/hardware/Skyline.cpp:54-78 | each frame sent has the auxiliary channel high exactly if its own read of the flag lies between those stores |
| `FlightThreads.StrayHistory` | cdrone/controller/FlightController.cpp:140-176 | what the model remembers of stray stores is their history in the run |
| `FlightThreads.ModeWithoutFlag` | cdrone/controller/FlightController.cpp:38-64 | a mode other than Disarmed with the flag clear occurs only inside a disarm order or after a stray store of the updating thread |
| `FlightThreads.FlagMatchesMode` | cdrone/controller/FlightController.cpp:38-64 | between orders the flag agrees with the mode exactly if it is set or no stray store is outstanding |
| `FlightThreads.FlyingHistory` | cdrone/controller/FlightController.cpp:46-64 | a drone in a mode to fly has had a take-off order since it was last armed or disarmed exactly if no late store of the updating thread put it there |
| `FlightThreads.ChannelHistory` | cdrone/hardware/Skyline.cpp:42-51 | a channel is open exactly if the updating thread has opened it since an order idled it |
| `FlightThreads.IdleExactly` | cdrone/hardware/Skyline.cpp:42-51 | the channels are idle exactly if none is open in that sense |
| `FlightThreads.StaleHistory` | cdrone/hardware/Skyline.cpp:54-78 | a channel that `sendRC` has read differs from the shared one exactly if an order has idled it, while open, since the read; the shared one is then idle |
| `FlightThreads.FrameIsCurrent` | cdrone/hardware/Skyline.cpp:54-78 | a frame carries the channels as they are at its read of the flag exactly if no order has idled an open one after it was read |
| `FlightExclusion.ExclusiveIsSafe` | cdrone/controller/FlightController.cpp:30-226 | if no order and no update come inside one another, the invariant of whole calls holds whenever neither is under way |
| `FlightExclusion.NothingStray` | cdrone/controller/FlightController.cpp:30-226 | then no store is stray or late, and the drone is in a mode to fly exactly if a take-off order stands |
| `FlightExclusion.OpenFrame` | cdrone/hardware/Skyline.cpp:54-78 | for every command in the clamps a run with that exclusion whose frame arms the board with the command on the channels, while the drone is in the mode Armed with idle channels |
| `FlightExclusion.FramesAreSafe` | cdrone/hardware/Skyline.cpp:54-78 | if orders exclude sending as well, every frame sent is that of the channels and the flag at its flag read, and the state is safe there |
| `FlightThreads.OrderAlone` | cdrone/controller/FlightController.cpp:30-78 | undisturbed accesses of an order do what the whole call does |
| `FlightThreads.UpdateAlone` | cdrone/controller/FlightController.cpp:140-226 | undisturbed accesses of an update do what the whole call does |
| `FlightThreads.SendAlone` | cdrone/hardware/Skyline.cpp:54-78 | undisturbed accesses of `sendRC` send one frame of the channels and the flag |
| `FlightThreads.StrayStore` | cdrone/controller/FlightController.cpp:173-175 | a run that ends with both threads done, the mode VelocityControl and the flag clear, where arming is then ignored |
| `FlightThreads.FlyingWithoutTakeOff` | cdrone/controller/FlightController.cpp:173-175 | a run that ends armed and flying after a disarm and an arm order |
| `FlightThreads.OpenThrottle` | cdrone/controller/FlightController.cpp:187-191 | for every command in the clamps a run that ends in the mode Armed with that command on the channels |

## Left out

- Doubles in JSON (`snprintf`, `sscanf`, locale fixes, special floats): their text is a parameter; in comparisons a double is a real, so NaN does not occur.
- Comments kept with values, dropped-null placeholders, single quotes, numeric keys, the other features that are off by default, `StyledWriter`, `StyledStreamWriter`, `Path`, the `Reader` class but for its integers.
- Texts and extra locations of parse errors: an error is its kind, its cause and its token.
- Ownership of strings, allocation failure and the 2^31 limit on the length of one string.
- A document with a NUL behind its end: the reader is given exactly the bytes of the document.
- JsonParsed.ReadFits: stated for documents shorter than 2^32 characters, as longer ones could hold more array elements than an index counts.
- JsonOrder.Trichotomy: stated for maps of fewer than 2^31 entries; `JsonOrder.BothBelowExactly` and `JsonOrder.TransitiveExactly` say what happens beyond, for maps whose own children are small.
- MessageIO.IO.RecvMessage: messages are at most 4096 bytes long, as the code does not check their length against its buffer.
- MultiWii.MultiWii.SendCommand: payloads are at most 250 bytes long, for the same reason.
- MultiWii.MultiWii.Recv: the preamble and the checksum of replies are not compared, as in the source.
- The base's `RecvMessage`, which reads whole frames with a library call.
- VariableLog.VariableLogger.Log: records are at most 8184 bytes long, as the code does not check their size; times fit 64 bits.
- The gzip and pax format of the archive, the removal of the directory's files, errors of opening files and of the stream the map is written to.
- Protobuf encoding: an arbitrary codec that restores the entries written, and map entries with repeated field names, which numpy refuses.
- Watchdog.Tick: a sleep lasts less than 2^31 epochs, about 3.4 years, as the source casts the quotient to `int`; the 64-bit counts do not wrap.
- The order in which a check reads the count and the maximum that it compares, which C++ leaves open: the count is read first.
- Registration of watchdogs, their names, and what the signal does to the process.
- WatchdogRuns.KillIsLate: speaks of kills that read a maximum other than zero; `WatchdogRuns.StopKillsExactly` is about the others, which only `stop` in the middle of the check makes possible.
- Flight.FlightController.constructor: the throttle's centre must be castable to 16 bits; `Drone.Loops.constructor` also asks that it lie within the clamps, which the configuration does not check.
- Drone.Loops.Run: raw channels are in the range the protocol documents, which the drone does not check.
- FlightThreads.RunKeepsInv: commands of the controllers are taken to be within their clamps, which needs a throttle centre within them, and the data race of both threads on the controller blocks is not modelled.
- The bytes of the channels in the payload of `sendRC`: a frame is its five numbers.
- Calibration: no dispatched command reaches it; the branches of an update for modes that are not reached end the model of single accesses.
- The rotation of estimates, the initial position, and the replies of the flight board other than the request for channels.
- The camera, infrared, VRPN, the terminal program, plotting and binning scripts, the configuration file's fields and the code generator.

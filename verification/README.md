# Burst JSON reader and writer, and two SQLite provider cores

A Dafny model, with proofs, of

- the pull parser `Utf8JsonParser`: block-wise input, depth buffers, shared path buffer, skipping, and the
  iterators `JObj` and `JArr` on top of it;
- the writer `Utf8JsonWriter`: separators, indentation, nesting and their exceptions, and `WriteTree`, which
  copies a parse into a writer;
- the buffers beneath them: `Bytes` with its overlapping word copies and its escaping loops over UTF-8 and
  UTF-16, and the interning `Utf8Buffer`;
- two cores of the SQLite provider: the transaction depth counter and the filter-to-SQL printer.

The pieces fit together in layers. `Lexer` says what each reader takes from the unread bytes and which lexemes
that accepts. `Machine` is one call of `NextEvent` as a step over a stack of open frames and the unread bytes;
`Containers` reads it one container at a time; `Grammar` gives the language by concrete syntax trees. The classes
`JsonInput` and `Utf8JsonParser` hold the blocks, positions and depth buffers of the program and are proved to
refine the machine. `Emitter` is the machine of the writer's calls, which the class `Utf8JsonWriter` refines;
`Layout` gives the text of a whole tree, `RoundTrip` connects reader and writer. `Output` describes single
appends to a growing array, and the class `Bytes` implements them over a real array.

Three modules look at all this from outside, in byte values and with definitions of their own: `Rfc8259` is the
grammar of the standard, `Unicode` holds decoders for UTF-8 and UTF-16 (RFC 3629 and RFC 2781), and `JsonText` is a
plain printer of trees with which the writer's output is compared.

## What the proofs say about the code

These results are about the code as it stands; nothing has been repaired in the model.

- Reading does not depend on the block size, on where blocks end, or on earlier documents, with one exception:
  an empty key that falls on the end of a full path buffer raises an index exception, and the capacity of this
  buffer is carried over from earlier documents (`Session.Observe`, `PathSafety.CapacityDecides`). For every input,
  correct or not, the events before the end or the first error, the key the failing call may have read, and the
  capacity decide whether this happens (`PathSafety.SafeIffEventsFit`).
- Every text of RFC 8259 is accepted, as its tree, exactly if it is not nested deeper than the limit; the root
  container is never checked, so the limit in force is at least 1 (`Rfc8259.TextsAreRead`). A number is flagged as
  floating point exactly if it has a fraction or an exponent (`Rfc8259.NumberIsNumber`).
- Surrogate escapes are decoded one by one. A text within the limit is therefore read as the tree the standard means
  exactly if no two escapes in it stand for one code point (`Rfc8259.TextsAreMeant`).
- Beyond the standard, numbers may be any run of digits, signs, dots and exponent letters, strings may hold control
  characters besides line ends, and unknown escapes such as `\x` are dropped (`Rfc8259.BeyondTheRfc`). The floating
  point flag ignores the first character of a number.
- The writer escapes seven bytes and no others. What it writes is a text of RFC 8259 exactly if no string or key holds
  another control byte and all numbers are given in the standard's form (`JsonText.WrittenIsRfc`); it is read back by
  this parser in any case (`RoundTrip.RoundTrip`).
- `AppendEscStringBytes` reserves one byte less than a string may take. It fails exactly if all bytes of the
  string are escaped and the array ends with the reserve (`Output.QuotedFails`). Whether a whole document has room
  is this guard at each of its strings and keys (`Output.PiecesFitExactly`, `RoundTrip.WritingSucceeds`). A new
  writer therefore fails on an array of 43 empty strings (`Shortfall.EmptyStringsFail`).
- Copying a document does not always end in a result flag. For any bytes it throws exactly if the parser meets the
  full path buffer, a start is beyond the writer's ceiling, or a string finds no room (`RoundTrip.CopyDocument`,
  `RoundTrip.CopyFeeds`); an array of 43 empty strings without its end throws where false is due
  (`Shortfall.UnterminatedFails`).
- Without the debug checks the writer cannot open level 16, because growing its depth buffers touches
  `startGuard`, which is created in debug builds only: nested arrays are written up to a depth of 15, whatever the
  limit (`Shortfall.NestingFails`).
- Skipping counts exactly: each counter grows by the number of events of its kind in what is skipped, and of an
  iterated container every node is either used or counted (`IterateAll.UsedOrSkipped`).
- A container call outside a transaction commits exactly the rows before the first one that fails
  (`SqlTransaction.CallCommitsPrefix`). A create is therefore atomic exactly if no row fails, the prepared statement
  fails, or the first row does; upserts and deletes also if the rows before the failing one change nothing
  (`SqlTransaction.Atomic`). Two new entities with one key are enough to commit a part
  (`SqlTransaction.DuplicateKeyCommits`).
- Inner transaction commands have no effect at all, so an inner rollback undoes nothing (`SqlTransaction.Flattened`).
- The SQL printer joins the operands of AND and OR without parentheses. The text is read as the tree that was
  printed exactly if no And of several operands has an OR at the surface of one (`SqlFilter.PrintedTree`).

## Model

| member | source | states |
|---|---|---|
| Lexer.StringComplete | Json/Burst/JsonParser.cs:649-710 | every body of plain bytes, escapes and \u escapes is read, up to its closing quote, as exactly the decoded bytes |
| Lexer.StringSound | Json/Burst/JsonParser.cs:649-772 | whatever the string reader accepts is such a body, so it accepts nothing else |
| Lexer.NumberComplete | Json/Burst/JsonParser.cs:607-646 | digits, signs, dots and exponents are read up to a terminator, which stays unread, or to the end of the input at the root |
| Lexer.NumberSound | Json/Burst/JsonParser.cs:607-646 | a number that is read consists of such characters only |
| Lexer.MatchComplete | Json/Burst/JsonParser.cs:793-819 | a keyword is read character by character wherever it stands |
| Machine.Step | Json/Burst/JsonParser.cs:429-576 | EOF and Error are exactly the finished and failed states, and every other event consumes at least one byte |
| Machine.RunLength | Json/Burst/JsonParser.cs:429-576 | n bytes yield at most n events before the final EOF or Error |
| Machine.ErrorAbsorbs | Json/Burst/JsonParser.cs:512-523 | after an error, or one call past EOF, every later event is Error |
| Machine.StepKinds | Json/Burst/JsonParser.cs:429-576 | one event opens, keeps or closes exactly one level of the right kind and stays within the limit |
| Machine.LevelIsUnclosed | Json/Burst/JsonParser.cs:429-576 | in every run, up to the end or an error, the level is the number of unclosed start events, the kinds of the open levels are theirs, and the level never exceeds the limit |
| Machine.ShownIsUnclosed | Json/Burst/JsonParser.cs:176-212 | the same for the level shown behind the end and behind errors, which leave it as it was: after any number of calls it is the number of unclosed start events |
| Containers.RunClose | Json/Burst/JsonParser.cs:429-576 | a container that closes contributes the pre-order events of its items and its end; a broken one ends the run in an error |
| Containers.CloseWellFormed | Json/Burst/JsonParser.cs:449-511 | the items read have keys exactly in objects and only lexer-accepted numbers |
| Containers.RunDocument | Json/Burst/JsonParser.cs:429-576 | EOF is reached exactly if the document has a tree, and then the events are its pre-order walk |
| Grammar.DocumentComplete | Json/Burst/JsonParser.cs:429-820 | every document of the grammar within the limit is read as its tree |
| Grammar.DocumentSound | Json/Burst/JsonParser.cs:429-820 | every document read to EOF is a document of the grammar within the limit, with that tree |
| Grammar.Language | Json/Burst/JsonParser.cs:429-820 | the parser reaches EOF exactly on the documents of the grammar within the limit |
| Grammar.LanguageEvents | Json/Burst/JsonParser.cs:429-820 | the events of a document of the grammar are the pre-order walk of its tree, then EOF |
| Grammar.UniqueTree | Json/Burst/JsonParser.cs:429-820 | a text has one tree, however it is derived |
| Rfc8259.TextsAreRead | Json/Burst/JsonParser.cs:429-820 | every text of RFC 8259 is accepted as its tree exactly if it is not nested deeper than the limit, and rejected otherwise |
| Rfc8259.TextsAreWalked | Json/Burst/JsonParser.cs:429-820 | the events of such a text are the pre-order walk of this tree, then EOF |
| Rfc8259.NumberIsNumber | Json/Burst/JsonParser.cs:607-646 | a number of the RFC is read whole, and flagged as floating point exactly if it has a fraction or an exponent |
| Rfc8259.SurrogatesStayApart | Json/Burst/JsonParser.cs:712-772 | a string of the RFC is decoded escape by escape, which is what the RFC means exactly if no two escapes are a surrogate pair |
| Rfc8259.TextsAreMeant | Json/Burst/JsonParser.cs:429-820 | a text of the RFC is read as the tree the RFC means exactly if it is not nested too deep and no string or key has a pair of surrogate escapes |
| Rfc8259.BeyondTheRfc | Json/Burst/JsonParser.cs:578-710 | in byte values, which numbers, characters, escapes and blanks are accepted, those the RFC does not know included |
| Input.JsonInput.InitParser | Json/Burst/JsonParser-Input.cs:115-121 | starting on a document makes exactly its bytes the unread ones and position 0, whatever was in the block |
| Input.JsonInput.ReadByteArray | Json/Burst/JsonParser-Input.cs:124-136 | the next block is copied from the array and the rest of it advances by as much |
| Input.JsonInput.Read | Json/Burst/JsonParser-Input.cs:46-79 | a new block leaves the unread bytes and the position as they were; there is none exactly at the end |
| Input.JsonInput.ReadWhiteSpace | Json/Burst/JsonParser.cs:578-605 | blanks are skipped across block ends and the byte behind them is taken |
| Input.JsonInput.ReadNumber | Json/Burst/JsonParser.cs:607-646 | the number read across block ends is the one of the whole input, with its float flag |
| Input.JsonInput.ReadUnicode | Json/Burst/JsonParser.cs:712-772 | four hex digits read across block ends become the UTF-8 form of their code unit |
| Input.JsonInput.ReadString | Json/Burst/JsonParser.cs:649-710 | the string read across block ends, even inside an escape, is the one of the whole input |
| Input.JsonInput.ReadKeyword | Json/Burst/JsonParser.cs:793-819 | a keyword is read across block ends as from the whole input |
| ParserState.PathLengthIs | Json/Burst/JsonParser.cs:461-505 | the path position of a level is the total length of the keys on the way to it |
| ParserState.SetKey | Json/Burst/JsonParser.cs:461-489 | cutting the path back and appending the next key replaces exactly the innermost frame |
| ParserState.PushFrame | Json/Burst/JsonParser.cs:538-560 | entering a container adds exactly one frame, whatever was left in the buffers above |
| Parser.Utf8JsonParser.Error | Json/Burst/JsonParser.cs:179-212 | the first error is stored with its position and marks the level; a later one changes nothing |
| Parser.Utf8JsonParser.InitParser | Json/Burst/JsonParser.cs:401-415 | from any earlier state, even after an exception, the machine is fresh on the new document, although path, key and value are kept |
| Parser.Utf8JsonParser.ResizeDepthBuffers | Json/Burst/JsonParser.cs:351-357 | all three depth buffers grow alike and keep their entries |
| Parser.Utf8JsonParser.Enter | Json/Burst/JsonParser.cs:538-560 | a start event pushes one frame and keeps the others, also when the buffers grow |
| Parser.Utf8JsonParser.AppendKey | Json/Burst/BytesAppend.cs:30-50 | appending a key fails exactly if it is empty and the path buffer is full |
| Parser.Utf8JsonParser.NextEvent | Json/Burst/JsonParser.cs:429-576 | one call is one step of the machine with the same event, key, value and number flag, each field by name; it throws exactly on an empty key at the end of a full path buffer; an error leaves the level as it was, and in error state the stored error stays |
| Path.GetPath | Json/Burst/JsonParser.cs:304-349 | the path over the shared buffer is the one rendered from the stack of open frames |
| Path.PathWithinLimit | Json/Burst/JsonParser.cs:304-349 | up to 500 bytes this is the plain concatenation of the segments, or (root) if there is none |
| Path.PathBeyondLimit | Json/Burst/JsonParser.cs:341-345 | a longer path ends with the first segment that passes 500 bytes, and three dots |
| Path.DecimalExactly | Json/Burst/JsonParser.cs:334 | the index in a path is the one decimal numeral of its number, without leading zeros |
| Path.PathIsRead | Json/Burst/JsonParser.cs:304-349 | a path without special bytes in its keys names the open containers one by one, with the key or index of the current item |
| Session.Observe | Json/Burst/JsonParser-Input.cs:46-136 | events, keys, values, number flags, paths and positions on a document are the same for every block size and every history, and an exception comes exactly on an unsafe document |
| Session.ObservedRun | Json/Burst/JsonParser.cs:429-576 | the observed events are the run of the machine without a final error |
| PathSafety.SafeIffEventsFit | Json/Burst/JsonParser.cs:461-489 | for every input, whether reading it runs into the exception is decided by the keys of the events before the end or the first error, the key the failing call may have read, and the capacity |
| PathSafety.SafeWithoutEmptyKeys | Json/Burst/JsonParser.cs:461-489 | an input in which no call reads an empty key, the failing one included, is read without the exception, whatever the capacity |
| PathSafety.SafeIffKeysFit | Json/Burst/JsonParser.cs:461-489 | for an accepted document the condition is a walk over the keys of its tree |
| PathSafety.SafeIffCloseFit | Json/Burst/JsonParser.cs:461-489 | reading on is safe exactly if it is to the end of the innermost container and, with the capacity there, from then on |
| PathSafety.CloseFitIsKeysFit | Json/Burst/JsonParser.cs:461-489 | for a container that closes, what reading it does to the path buffer is the walk over its keys |
| PathSafety.CapacityDecides | Json/Burst/BytesAppend.cs:30-50 | a family of correct documents that is read or not depending only on the carried-over capacity, with the exact condition |
| Skip.SkipObject | Json/Burst/JsonParser.cs:847-886 | skips to just behind the end of the object, or fails if an error comes first; each counter grows by the number of skipped events of its kind; it throws exactly if reading to there meets the full path buffer |
| Skip.SkipArray | Json/Burst/JsonParser.cs:888-927 | the same for arrays |
| Skip.SkipTree | Json/Burst/JsonParser.cs:827-845 | skips the container the parser is in, or the root value, or does nothing behind it; it throws exactly if reading this meets the full path buffer |
| Skip.SkipEvent | Json/Burst/JsonParser.cs:938-966 | skips what the last event started or counts the value it delivered; ends and errors skip nothing and give false, and before the first event it gives true |
| Skip.CountIsNumber | Json/Burst/JsonParser.cs:847-927 | each of the seven counters of a tree is the number of its events of that kind, floats by a dot or exponent behind the first byte |
| Iterate.JObj.NextObjectMember | Json/Burst/JsonParser-JObj.cs:26-70 | a total description: out of place it throws, where debug builds check this; behind an end that was not used it does nothing; otherwise it leaves the current member, skipping and counting it unless it was used, and makes one step, and throws exactly on the full path buffer or the end of an array, which a consistent iterator never meets |
| Iterate.JObj.UseMember | Json/Burst/JsonParser-JObj.cs:74-86 | in debug builds the check passes exactly while the iterator stands on a member of its own object; release builds have none |
| Iterate.JObj.UseMemberValue | Json/Burst/JsonParser-JObj.cs:110-140 | a member is used exactly if its event and its key match |
| Iterate.JObj.UseMemberObj | Json/Burst/JsonParser-JObj.cs:88-97 | an object member with this key is used and its iterator is bound to its level |
| Iterate.JObj.UseMemberArr | Json/Burst/JsonParser-JObj.cs:99-108 | the same for array members |
| Iterate.JArr.NextArrayElement | Json/Burst/JsonParser-JArr.cs:26-72 | the same for elements |
| Iterate.JArr.UseElement | Json/Burst/JsonParser-JArr.cs:76-88 | in debug builds the check passes exactly while the iterator stands on an element of its own array; release builds have none |
| Iterate.JArr.UseElementValue | Json/Burst/JsonParser-JArr.cs:112-142 | an element is used exactly if its event matches |
| Iterate.JArr.UseElementObj | Json/Burst/JsonParser-JArr.cs:90-99 | an object element is used and its iterator is bound to its level |
| Iterate.JArr.UseElementArr | Json/Burst/JsonParser-JArr.cs:101-110 | the same for array elements |
| IterateAll.IterateObject | Json/Burst/JsonParser-JObj.cs:26-108 | a whole iteration, in which each item at each level is independently used or left alone, visits the direct members once and in order, stops just behind the end, never meets a level check, counts each category by the events of the skipped subtrees, and throws exactly if reading the object meets the full path buffer |
| IterateAll.IterateArray | Json/Burst/JsonParser-JArr.cs:26-110 | the same for arrays |
| IterateAll.UsedOrSkipped | Json/Burst/JsonParser-JObj.cs:26-70 | of each category, the items used and the nodes skipped are together the nodes of the container |
| IterateAll.InPlaceExactly | Json/Burst/JsonParser-JObj.cs:26-86 | the level check passes exactly if the innermost container, or the one around a container just started, is the object of the iterator and has a member |
| IterateAll.ElementInPlaceExactly | Json/Burst/JsonParser-JArr.cs:26-88 | the same for arrays |
| Output.QuotedFails | Json/Burst/JsonWriterBytes.cs:30-54 | writing a string fails exactly if all its bytes are escaped and the array ends with the reserve |
| Output.PiecesFitExactly | Json/Burst/JsonWriterBytes.cs:30-54 | appends succeed exactly if at each of them this guard does not fail, decided by the lengths of output and array alone; a copy of nothing needs one free byte |
| Output.CoveredPiecesFit | Json/Burst/JsonWriterBytes.cs:30-54 | strings with a byte that needs no escape always find room |
| Output.WrittenUnits | Json/Burst/JsonWriterBytes.cs:30-54 | a written string is a valid string body that decodes to the original bytes, whatever they are |
| JsonText.QuotedExactly | Json/Burst/JsonWriterBytes.cs:30-54 | the written string is the only text between quotes of raw bytes and the seven short escapes that stands for the string: none of 8, 9, 10, 12, 13, 34 and 92 is raw, and every other byte is itself |
| JsonText.DocumentIsStringified | Json/Burst/JsonWriter.cs:229-462 | the whole text, compact or indented, byte by byte, is that of a plain recursive printer |
| JsonText.DocumentIsClean | Json/Burst/JsonWriterBytes.cs:30-54 | the bytes 8, 9, 12 and 13 are nowhere in a written document, and line feeds only when indenting |
| JsonText.WrittenIsRfc | Json/Burst/JsonWriterBytes.cs:30-54 | the written document is a text of RFC 8259 exactly if its strings and keys hold no control byte without a short escape and its numbers are those of the RFC |
| JsonText.Utf16IsRead | Json/Burst/JsonWriter.cs:176-227 | what is written of a UTF-16 string decodes, through the seven escapes and UTF-8, to exactly its code points |
| Output.PutAllAppends | Json/Burst/Bytes.cs:372-389 | appends that succeed leave the old output in front and add exactly their text |
| Writer.Utf8JsonWriter.InitSerializer | Json/Burst/JsonWriter.cs:79-100 | from any state the writer is at the root with an empty output that keeps its array |
| Writer.Utf8JsonWriter.ResizeDepthBuffers | Json/Burst/JsonWriter.cs:102-108 | the buffers grow alike in debug builds; in release builds growing is a null reference |
| Writer.Utf8JsonWriter.AddSeparator | Json/Burst/JsonWriter.cs:269-281 | the comma and indentation in front of an item, by the flags of the level, and the first flag cleared |
| Writer.Utf8JsonWriter.NodeStart | Json/Burst/JsonWriter.cs:284-296 | a start call refines the call machine, with the depth exceptions and the start guard |
| Writer.Utf8JsonWriter.MemberStart | Json/Burst/JsonWriterBytes.cs:77-92 | a start call with a key refines the call machine; out of place it throws in debug builds, and otherwise writes a separator and the key and then starts as without one |
| Writer.Utf8JsonWriter.MemberScalar | Json/Burst/JsonWriterBytes.cs:95-143 | a member call refines the call machine; out of place it throws in debug builds, except for bytes, and otherwise writes its pieces all the same |
| Writer.Utf8JsonWriter.ElementScalar | Json/Burst/JsonWriter.cs:418-462 | an element call refines the call machine; out of place it throws in debug builds, except for bytes, and otherwise writes its pieces all the same |
| Writer.Utf8JsonWriter.NodeEnd | Json/Burst/JsonWriter.cs:299-306 | an end call refines the call machine and always throws at the root; inside the wrong container it throws in debug builds, and otherwise ends the level with its own bracket |
| Emitter.FeedConcat | Json/Burst/JsonWriter.cs:269-462 | a list of calls is one part after the other, and an exception ends it |
| Layout.CallsArePreOrder | Json/Burst/JsonWriter.cs:284-462 | the calls for a tree are its pre-order events, whatever is chosen for wrapping |
| Layout.FeedTree | Json/Burst/JsonWriter.cs:269-415 | the calls for a tree write its pieces and leave its level as after one item, or fail exactly for depth or room, with the exception that applies |
| Layout.FeedAlong | Json/Burst/JsonWriter.cs:269-415 | the same for any calls that follow the nesting, complete or broken off |
| Layout.BodyIsText | Json/Burst/JsonWriter.cs:229-281 | the pieces of a tree, compact or indented, are the text of a written form of the grammar |
| Layout.WrittenTree | Json/Burst/JsonWriter.cs:229-462 | this written form is valid and stands for exactly this tree |
| RoundTrip.WritingSucceeds | Json/Burst/JsonWriter.cs:269-462 | the calls for a document succeed exactly if the tree fits below the ceiling and the lengths of what is written leave room for every string, with the exception that applies otherwise, and give the document's text |
| RoundTrip.RoundTrip | Json/Burst/JsonWriter.cs:269-415 | what the writer makes of any tree, compact or indented and wrapped in any way, is read back as exactly its pre-order events and EOF |
| RoundTrip.WriteJson | Json/Burst/JsonWriter.cs:284-462 | the calls of the API in pre-order, on the writer itself, have the outcome of the call machine |
| RoundTrip.WriteDocument | Json/Burst/JsonWriter.cs:79-462 | a whole document on a used writer succeeds exactly if depth and room suffice, and its output is read back as the events of the tree by every parser whose limit the tree respects |
| RoundTrip.CopyOfCopy | Json/Burst/JsonWriter.cs:551-573 | a copy has the same events as the original, and copying it again in the same way gives the same bytes |
| RoundTrip.StepFits | Json/Burst/JsonWriter.cs:284-306 | one event of a parser within the writer's ceiling is always in its place and never too deep for the writer |
| RoundTrip.RunFits | Json/Burst/JsonWriter.cs:284-306 | the same for all events before the end or the first error of any input |
| RoundTrip.RunAlong | Json/Burst/JsonWriter.cs:284-306 | whatever the input, these events follow the nesting of the writer |
| RoundTrip.RestIsPrefix | Json/Burst/JsonWriter.cs:465-549 | what is copied of a container is exactly what the parser reads next, up to its end or the first error |
| RoundTrip.CopyDocument | Json/Burst/JsonWriter.cs:465-573 | for any bytes, correct or not, copying throws nothing exactly if no key falls on the end of a full path buffer, no start is beyond the ceiling and the lengths of the copied events leave room for every string; then it returns whether the root value was complete; for an accepted document these are conditions on its tree, which the copy keeps |
| RoundTrip.CopyFeeds | Json/Burst/JsonWriter.cs:465-573 | the calls of a copy of any bytes succeed exactly by depth and lengths, with the exception that applies |
| RoundTrip.CopyIsSafe | Json/Burst/JsonWriter.cs:465-573 | a document meets the full path buffer exactly while its root value is copied |
| WriteTree.RestIsItems | Json/Burst/JsonWriter.cs:465-549 | a complete container is copied as the pre-order events of its items and its end |
| WriteTree.NextObjectMember | Json/Burst/JsonWriter.cs:601-617 | the advance without skipping is one step and never meets its exception inside an object |
| WriteTree.NextArrayElement | Json/Burst/JsonWriter.cs:619-635 | the same inside an array |
| WriteTree.WriteObject | Json/Burst/JsonWriter.cs:465-508 | feeds the writer exactly the events up to the end of the object and returns whether it was reached, although nested results are ignored; an exception is the writer's, or that of the path buffer exactly where reading the object meets it |
| WriteTree.WriteArray | Json/Burst/JsonWriter.cs:510-549 | the same for arrays |
| WriteTree.WriteTree | Json/Burst/JsonWriter.cs:551-573 | copies the current value without its key, with the same result and exceptions |
| Shortfall.EmptyStringsFail | Json/Burst/JsonWriterBytes.cs:30-54 | a new writer fails on an array of n empty strings exactly from 43 on |
| Shortfall.UnterminatedFails | Json/Burst/JsonWriter.cs:510-573 | copying this array without its end returns false up to n == 42 and throws from 43 on |
| Shortfall.NestingFails | Json/Burst/JsonWriter.cs:79-107 | n nested arrays are written exactly up to maxDepth, or up to 15 in release builds if this is less, with the exception of the smaller of the two beyond |
| Bytes.GrowthIsAmortised | Json/Burst/Bytes.cs:372-389 | over any requests the bytes moved are at most the growth, every request is met, and the length is at most twice the largest one or the initial length |
| Bytes.GrowthsDouble | Json/Burst/Bytes.cs:372-389 | n replacements of the array multiply its length at least by two to the n |
| Bytes.Bytes.Resize | Json/Burst/Bytes.cs:119-128 | a new array with the old bytes as far as they fit |
| Bytes.Bytes.EnsureCapacityAbs | Json/Burst/Bytes.cs:372-389 | an array that is too short is replaced by one of the size asked for or of twice its length, whichever is larger, contents kept; otherwise nothing changes |
| Bytes.Bytes.AppendChar | Json/Burst/Bytes.cs:456-462 | one character behind the old contents; like every append it moves at most as many bytes as the array grows, so a run of appends does too |
| Bytes.Bytes.AppendArray | Json/Burst/Bytes.cs:444-453 | the given stretch behind the old contents, even from the own array |
| Bytes.Bytes.CopyShort | Json/Burst/BytesAppend.cs:47-60 | up to 8 bytes by one or two overlapping words are a plain copy and touch nothing else |
| Bytes.Bytes.CopyLong | Json/Burst/BytesAppend.cs:61-112 | 9 to 63 bytes by overlapping words are a plain copy and touch nothing else |
| Bytes.Bytes.AppendBytes | Json/Burst/BytesAppend.cs:30-115 | a plain append for every length: old contents kept, nothing written behind the new end; it fails exactly for nothing to copy at the end of an array |
| Bytes.Bytes.AppendEscStringBytes | Json/Burst/JsonWriterBytes.cs:30-54 | the escaping loop writes the piece of the writer's model and fails exactly where this does not fit |
| Bytes.Bytes.IndentJsonNode | Json/Burst/JsonWriter.cs:246-255 | a line feed and four blanks for each level |
| Utf16.EscapeCodePoint | Json/Burst/JsonWriter.cs:207-220 | no byte of a longer UTF-8 form is ever escaped, and a code point takes at most three bytes, or four for a pair |
| Utf16.EscapedLength | Json/Burst/JsonWriter.cs:176-179 | a string takes at most three bytes for each unit |
| Utf16.AppendUnicodeToBytes | Json/Burst/Utils/Utf8Utils.cs:76-111 | appends the UTF-8 form of a code point, and its debug check passes with four free bytes |
| Utf16.AppendEscString | Json/Burst/JsonWriter.cs:176-227 | succeeds exactly for well-formed UTF-16, stays inside its reserve, and writes what the byte loop writes for the UTF-8 form |
| Unicode.Utf8IsForm | Json/Burst/Utils/Utf8Utils.cs:76-111 | what is encoded is the shortest UTF-8 form of the code point, by the bits of its bytes |
| Unicode.Utf16ToUtf8 | Json/Burst/JsonWriter.cs:190-227 | every text of code points, written in UTF-16, is well formed, and its UTF-8 form decodes to these code points again |
| Unicode.WellFormedIsText | Json/Burst/JsonWriter.cs:190-206 | the strings that are written are exactly the UTF-16 forms of texts of code points |
| Utf8Buffer.Disjoint | Json/Burst/Utf8String.cs:166-181 | the regions of different handles do not overlap |
| Utf8Buffer.KeptSnoc | Json/Burst/Utf8String.cs:129-150 | writing behind the used part, also into a longer array, keeps every handed-out text |
| Utf8Buffer.Utf8Buffer.Reserve | Json/Burst/Utf8String.cs:166-181 | room behind the used part, which is kept when the array grows |
| Utf8Buffer.Utf8Buffer.Add | Json/Burst/Utf8String.cs:129-150 | a new handle for the text, all earlier handles keep their bytes |
| Utf8Buffer.Utf8Buffer.GetOrAdd | Json/Burst/Utf8String.cs:114-123 | an equal string is found again with the same handle and nothing changes, otherwise one is added; the strings stay pairwise different |
| Utf8Buffer.Utf8Buffer.AsBytes | Json/Burst/Utf8String.cs:152-164 | a copy of all strings that shares nothing with the buffer |
| SqlTransaction.RunConsistent | Json/Fliox.Hub.SQLite/SQLiteSyncConnection.cs:44-62 | in every run of commands BEGIN and its end alternate and the depth is positive exactly while a transaction is open |
| SqlTransaction.Flattened | Json/Fliox.Hub.SQLite/SQLiteSyncConnection.cs:44-62 | inside an open transaction nothing is sent or committed and inner commands change nothing: the data are what the container calls alone make of them |
| SqlTransaction.Transaction | Json/Fliox.Hub.SQLite/SQLiteDatabase.cs:116-145 | an outermost Rollback restores the data at the outermost Begin and an outermost Commit publishes all rows, whatever happened inside, with one BEGIN and one end |
| SqlTransaction.CallCommitsPrefix | Json/Fliox.Hub.SQLite/SQLiteContainer.cs:109-380 | outside a transaction a call commits at once, successful or not, exactly its rows before the first one that fails, which is decided by the keys in the table, the keys before it in the list and the fault; deleting everything empties the table or fails as a whole |
| SqlTransaction.InsertedRows | Json/Fliox.Hub.SQLite/SQLiteUtils.cs:136-159 | inserting stops at the first row that fails, and the table holds what was there and the rows before it |
| SqlTransaction.UpsertedRows | Json/Fliox.Hub.SQLite/SQLiteUtils.cs:136-159 | the same for upserts, where of rows with the same key the last one stays |
| SqlTransaction.DeletedRows | Json/Fliox.Hub.SQLite/SQLiteUtils.cs:218-236 | deleting stops at the first row that fails, and exactly the keys before it are gone |
| SqlTransaction.Atomic | Json/Fliox.Hub.SQLite/SQLiteContainer.cs:109-380 | a call outside a transaction is all or nothing exactly if no row fails, the prepared statement fails, or the rows before the failing one change nothing; to create there must be none |
| SqlTransaction.DuplicateKeyCommits | Json/Fliox.Hub.SQLite/SQLiteContainer.cs:114-145 | two new entities with one key: the first is committed, the second fails and the call reports an error |
| SqlTransaction.SyncConnection.BeginTransaction | Json/Fliox.Hub.SQLite/SQLiteSyncConnection.cs:44-52 | one level deeper, BEGIN only at the outermost |
| SqlTransaction.SyncConnection.EndTransaction | Json/Fliox.Hub.SQLite/SQLiteSyncConnection.cs:54-62 | one level up, the statement only at the outermost; an exception exactly without an open level |
| SqlTransaction.SyncConnection.Transaction | Json/Fliox.Hub.SQLite/SQLiteDatabase.cs:116-145 | a user command refines the command machine; an end without a begin is an exception |
| SqlTransaction.TransactionScope.EndTransaction | Json/Fliox.Hub.SQLite/SQLiteSyncConnection.cs:73-77 | ends the transaction and detaches the scope; a scope detached before is a null reference |
| SqlTransaction.TransactionScope.Dispose | Json/Fliox.Hub.SQLite/SQLiteSyncConnection.cs:79-85 | commits if the scope was left without an end and does nothing otherwise; an attached scope whose level was ended elsewhere throws and stays attached |
| SqlTransaction.AppendValues | Json/Fliox.Hub.SQLite/SQLiteUtils.cs:136-159 | rows are stored one after the other up to the first failure |
| SqlTransaction.AppendKeys | Json/Fliox.Hub.SQLite/SQLiteUtils.cs:218-236 | keys are deleted one after the other up to the first failure |
| SqlTransaction.CreateEntities | Json/Fliox.Hub.SQLite/SQLiteContainer.cs:109-146 | depth-neutral on every return path, with exactly the rows and the result of the command |
| SqlTransaction.UpsertEntities | Json/Fliox.Hub.SQLite/SQLiteContainer.cs:155-201 | the same; nothing at all is sent for no entities |
| SqlTransaction.DeleteEntities | Json/Fliox.Hub.SQLite/SQLiteContainer.cs:350-380 | the same; deleting everything uses no scope |
| SqlFilter.Traverse | Json/Fliox.Hub.SQLite/SQLiteExtensions.cs:90-160 | the recursive printer with its operand loop gives the printed tokens |
| SqlFilter.GetOperands | Json/Fliox.Hub.SQLite/SQLiteExtensions.cs:327-333 | every operand is printed, in order |
| SqlFilter.PrintedIsReadable | Json/Fliox.Hub.SQLite/SQLiteExtensions.cs:146-160 | the printed text is always readable with NOT over AND over OR, and nothing is left over |
| SqlFilter.PrintedTree | Json/Fliox.Hub.SQLite/SQLiteExtensions.cs:151-160 | it is read as the tree that was printed exactly if no And of several operands has an OR at the surface of one |
| SqlFilter.PrintedMeaning | Json/Fliox.Hub.SQLite/SQLiteExtensions.cs:90-160 | then it has the three-valued truth of the filter on every row |
| SqlFilter.IntendedIsMeant | Json/Fliox.Hub.SQLite/SQLiteExtensions.cs:104-124 | comparisons with null and the printed not-equal have the meaning of the filter, which for not-equal of two other operands is never unknown |
| SqlFilter.PlainMeaning | Json/Fliox.Hub.SQLite/SQLiteExtensions.cs:104-160 | on a row where no comparison meets a null, the truth of the filter is that of the condition it stands for |
| SqlFilter.TruthTables | Json/Fliox.Hub.SQLite/SQLiteExtensions.cs:146-160 | when NOT, AND and OR are true, false or unknown, by their operands |
| SqlFilter.NullMeaning | Json/Fliox.Hub.SQLite/SQLiteExtensions.cs:104-124 | what each comparison means when a side is null |
| SqlFilter.OrUnderAnd | Json/Fliox.Hub.SQLite/SQLiteExtensions.cs:151-160 | an OR below an AND that holds on a row where the filter does not |

## Left out

- Stream input and other readers: the byte-array path carries the block logic.
- Error messages and error positions inside strings: their text and position depend on blocks; only that the first one is kept is modelled.
- Path.GetPath: does not model the path of a parser in error, because it is only used for messages.
- Parser.Utf8JsonParser.SetMaxDepth: does not model that the first InitParser of a parser overwrites a limit set before it, because the model's constructor creates the buffers.
- Writer.Utf8JsonWriter.NodeStart: states nothing about the output after an exception, and neither do the other writer calls.
- Writer.Utf8JsonWriter.MemberScalar: the writer's output is a value (bytes and array length) in the writer and a real array in `Bytes`, so aliasing of the two is not modelled.
- Bytes.Bytes.AppendArray: a stretch of the own array must end at or before the own end; behind it the copy would read bytes it has just written, or stale ones.
- Bytes.Bytes.AppendBytes: the same for a view of the own array.
- `WriteMember`, which repeats the switch of `WriteObject` for one member and always returns false.
- Numbers are byte strings: conversion to and formatting of numbers, Guid and DateTime are not modelled, nor are the writer calls that take them.
- Key and value buffers of the parser are values; their own growth cannot fail and is not modelled.
- Integer overflow of lengths, allocation tracking, disposal, Unity variants and the obsolete append.
- The conversion of text to UTF-8 by the platform encoder in `Utf8Buffer`; texts are given in their UTF-8 form.
- Failing BEGIN, COMMIT and ROLLBACK, locks, connection pools and asynchronous wrappers; row failures are parameters.
- The characters of the printed SQL: the text is a sequence of tokens, with columns and numbers as atoms.
- String literals, LIKE, arithmetic, quantifiers and array fields of the SQL printer, and the printers for other databases; filters with an And or Or of no operands, which print nothing.

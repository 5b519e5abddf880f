# Models of the two parsing engines behind the gateway

The gateway runs two C engines on every request: cJSON, which parses, prints, edits and minifies JSON
documents, and libinjection, which reads text as SQL and as HTML and judges the token streams. This
project models both and proves what they are relied on for.

| files | what they model |
|---|---|
| `Text.dfy` | byte strings, `memchr`, `strspn` and the like |
| `SqliLookup.dfy` | the keyword comparison and the binary search |
| `SqliLex.dfy`, `SqliString.dfy` | what each character parser reads, and where a quoted string closes |
| `SqliFold.dfy` | folding as a machine over a window of tokens: its invariant and its measure |
| `SqliState.dfy` | the tokenizer, the folding loop and the fingerprint over mutable slots |
| `JsonText.dfy`, `JsonValue.dfy`, `JsonParse.dfy` | escaping, rendering and parsing as functions |
| `JsonGrammar.dfy` | which literals the parser accepts, against the grammar |
| `JsonRoundTrip.dfy` | printed documents parse back |
| `JsonNode.dfy`, `JsonList.dfy` | linked nodes, who owns what, the allocator's ledger, deletion |
| `JsonLiteral.dfy`, `JsonParser.dfy` | the recursive-descent parser, with allocations that may fail |
| `JsonEdit.dfy`, `JsonCopy.dfy` | append, insert, detach, replace; arrays of integers, duplicates |
| `JsonPrinter.dfy`, `JsonReparse.dfy` | the printer over a growing or a given buffer; print, then parse |
| `JsonMinify.dfy`, `JsonMinifyLaws.dfy` | the in-place minifier and what it makes of printed text |
| `JsonCompare.dfy`, `JsonCompareTree.dfy` | comparison of documents, on values and on nodes |
| `Html5.dfy`, `Html5State.dfy` | the HTML tokenizer as a step function and as mutable state |
| `Xss.dfy`, `XssDetect.dfy` | entity decoding, the matchers, the detection loop |

A byte is a `char`; a buffer that is never written is a `string`. Objects that the code updates in place
are classes, and their methods are proved against functions, about which the laws are then proved. A
node of a document carries, as ghost fields, the sequence of its children, the memory it owns and the
document it stands for; `Valid()` ties them to the pointers all the way down. The allocator keeps the set
of what is handed out and not freed; it may fail at any request, and freeing demands that the argument is
in the set, so nothing is freed twice. A contract that says `live == old(live) + root.repr` says that
nothing leaks.

## Where the code is surprising

The model follows the code in these places.

- Minifying the formatted print does not always give the unformatted print. `minify_string` takes a
  backslash and a quote for an escaped quote even when the backslash is itself escaped, so a string that
  ends in a backslash swallows its closing quote. `JsonMinifyLaws.MinifyUnformats` has the exact condition.
- `parse_string` accepts more literals than the grammar of RFC 8259 allows, in two ways: `parse_hex4` answers
  zero for digits that are not hexadecimal, and control characters need no escape.
  `JsonGrammar.AcceptedExactly` says exactly which accepted literals are of the grammar;
  `JsonGrammar.MalformedReads` and `JsonGrammar.ControlReads` have some that are not. With malformed digits
  the two passes may lose alignment, as in `JsonGrammar.PassesDiverge`; `JsonText.DecodeFits` shows that the
  buffer still suffices.
- The printer asks for one byte more than the text and its terminator; `JsonPrinter.PrintPreallocated` says
  exactly when it succeeds. The length it reports is that of the text for arrays and objects only.
- `cJSON_Compare` looks members up by key and finds the first. So, with integers below 2^52, an object that
  repeats a key with different values differs from its own copy; one that repeats it with the same value
  equals the object without the repetition. For integers below 2^52 `JsonCompare.SameMeans` and
  `JsonCompare.SameAsItself` have the exact conditions; from there on the tolerance for numbers lets more
  pairs pass (`JsonCompare.ToleranceShows`).
- `h5_skip_white` returns a signed char, so a byte of 255 reads as the end of the input; `h5_is_white`
  finds the terminator of its set, so NUL is white space.
- `add_item_to_array` clears the item's own next pointer in an empty list only. `JsonEdit.LinkLast` shows
  that the list comes out well linked exactly when the list was empty or that pointer was null.

## Model

| member | source | states |
|---|---|---|
| SqliLookup.CaseCmpZero | src/c/libinjection/libinjection_sqli.c:221-237 | the case-folding comparison answers zero exactly when the upcased key is the word, for every key including embedded NULs and bytes from 128 up |
| SqliLookup.CaseCmpMonotone | src/c/libinjection/libinjection_sqli.c:221-276 | the comparison is monotone along the sorted table: below a word that is not above the key, every word is strictly below the key |
| SqliLookup.OnlyCandidate | src/c/libinjection/libinjection_sqli.c:246-276 | where the halving stops, only one entry of the table can still match |
| SqliLookup.CStrCaseCmp | src/c/libinjection/libinjection_sqli.c:221-237 | the loop computes the comparison |
| SqliLookup.BsearchKeywordType | src/c/libinjection/libinjection_sqli.c:246-276 | on every strictly sorted, non-empty, upper-case table the binary search returns what a linear scan for the upcased key finds, and NUL otherwise |
| SqliString.IsBackslashEscaped | src/c/libinjection/libinjection_sqli.c:588-609 | counting backslashes backwards gives the parity of the run that ends right before the delimiter |
| SqliString.ReachDelimiter | src/c/libinjection/libinjection_sqli.c:588-675 | reading left to right from an unescaped position reaches the next delimiter unescaped exactly when the backslash run before it is even |
| SqliString.NeverCloses | src/c/libinjection/libinjection_sqli.c:624-675 | a string without a closing delimiter runs to the end |
| SqliString.CloseString | src/c/libinjection/libinjection_sqli.c:624-675 | the search that jumps from delimiter to delimiter and looks back for backslashes closes exactly where a left-to-right automaton closes (a backslash takes the next byte, a doubled delimiter is content), or at the end |
| SqliLex.CloseAt | src/c/libinjection/libinjection_sqli.c:624-675 | the automaton: it stops at the end or on the delimiter |
| SqliLex.StringCore | src/c/libinjection/libinjection_sqli.c:624-675 | a string token is the input between its marks, cut to 31 bytes, and reading moves on |
| SqliLex.White | src/c/libinjection/libinjection_sqli.c:348-351 | old position < new position <= length |
| SqliLex.EolComment | src/c/libinjection/libinjection_sqli.c:377-392 | old position < new position <= length; the token is the input at its position |
| SqliLex.Hash | src/c/libinjection/libinjection_sqli.c:397-406 | old position < new position <= length; the token is the input at its position |
| SqliLex.Dash | src/c/libinjection/libinjection_sqli.c:408-437 | old position < new position <= length; the token is the input at its position |
| SqliLex.Slash | src/c/libinjection/libinjection_sqli.c:456-521 | old position < new position <= length; the token is the input at its position |
| SqliLex.Backslash | src/c/libinjection/libinjection_sqli.c:523-538 | old position < new position <= length; the token is the input at its position |
| SqliLex.Operator2 | src/c/libinjection/libinjection_sqli.c:540-580 | old position < new position <= length; the token is the input at its position |
| SqliLex.WordAt | src/c/libinjection/libinjection_sqli.c:877-921 | old position < new position <= length; the token is the input at its position, whether or not the word is split |
| SqliLex.Estring | src/c/libinjection/libinjection_sqli.c:696-705 | old position < new position <= length; the token is the input at its position |
| SqliLex.Ustring | src/c/libinjection/libinjection_sqli.c:707-723 | old position < new position <= length; the token is the input at its position |
| SqliLex.QstringCore | src/c/libinjection/libinjection_sqli.c:725-784 | old position < new position <= length; the token is the input at its position |
| SqliLex.Nqstring | src/c/libinjection/libinjection_sqli.c:794-801 | old position < new position <= length; the token is the input at its position |
| SqliLex.DigitString | src/c/libinjection/libinjection_sqli.c:807-856 | old position < new position <= length; the token is the input at its position |
| SqliLex.Bword | src/c/libinjection/libinjection_sqli.c:863-875 | old position < new position <= length; the token is the input at its position |
| SqliLex.Tick | src/c/libinjection/libinjection_sqli.c:927-951 | old position < new position <= length; the token is the input at its position |
| SqliLex.Var | src/c/libinjection/libinjection_sqli.c:953-1001 | old position < new position <= length; the token is the input at its position |
| SqliLex.Money | src/c/libinjection/libinjection_sqli.c:1003-1088 | old position < new position <= length; the token is the input at its position |
| SqliLex.NumberAt | src/c/libinjection/libinjection_sqli.c:1090-1194 | old position < new position <= length; the token is the input at its position |
| SqliLex.SlashComment | src/c/libinjection/libinjection_sqli.c:456-521 | a comment ends behind its first closing mark, or at the end; it is evil if and only if a version mark follows its opening or, closed, it has another opening inside |
| SqliLex.LexAt | src/c/libinjection/libinjection_sqli.c:1203-1255 | whatever byte the dispatch starts from, reading moves on inside the input and a token that is produced is the slice of the input at its position, at most 31 bytes |
| SqliState.State.ParseStringCore | src/c/libinjection/libinjection_sqli.c:624-675 | the parser leaves in the current slot, in place, exactly what the function for the same position reads, and returns its next position |
| SqliState.State.ParseOperator2 | src/c/libinjection/libinjection_sqli.c:540-580 | the parser leaves in the current slot, in place, exactly what the function for the same position reads, and returns its next position |
| SqliState.State.ParseSlash | src/c/libinjection/libinjection_sqli.c:478-521 | the parser leaves in the current slot, in place, exactly what the function for the same position reads, and returns its next position |
| SqliState.State.ParseWord | src/c/libinjection/libinjection_sqli.c:877-921 | the parser leaves in the current slot, in place, exactly what the function for the same position reads, and returns its next position |
| SqliState.State.ParseQstringCore | src/c/libinjection/libinjection_sqli.c:725-784 | the parser leaves in the current slot, in place, exactly what the function for the same position reads, and returns its next position |
| SqliState.State.ParseVar | src/c/libinjection/libinjection_sqli.c:953-1001 | the parser leaves in the current slot, in place, exactly what the function for the same position reads, and returns its next position |
| SqliState.State.ParseMoney | src/c/libinjection/libinjection_sqli.c:1003-1088 | the parser leaves in the current slot, in place, exactly what the function for the same position reads, and returns its next position |
| SqliState.State.ParseNumber | src/c/libinjection/libinjection_sqli.c:1090-1194 | the parser leaves in the current slot, in place, exactly what the function for the same position reads, and returns its next position |
| SqliState.State.StAssign | src/c/libinjection/libinjection_sqli.c:302-311 | the value is cut to 31 bytes; the other slots do not change |
| SqliState.State.Tokenize | src/c/libinjection/libinjection_sqli.c:1203-1255 | one call stores the next token of the stream in the current slot, moves `pos` behind it and leaves the other slots alone |
| SqliFold.Scan | src/c/libinjection/libinjection_sqli.c:1203-1255 | the next token starts at or after the reading position, ends at or before the new one, has a kind, and is the input at its position |
| SqliFold.TokensAreSlices | src/c/libinjection/libinjection_sqli.c:302-311 | over a whole input: tokens occupy increasing, disjoint ranges and each value is the slice of the input at its position, shorter than 32 bytes; at most one token a byte |
| SqliFold.FetchSound | src/c/libinjection/libinjection_sqli.c:1438-1451 | reading tokens into the window keeps the invariant of the window |
| SqliFold.ApplySound | src/c/libinjection/libinjection_sqli.c:1463-1878 | whatever rule fires, dropping, merging or retyping tokens keeps the invariant |
| SqliFold.StepSound | src/c/libinjection/libinjection_sqli.c:1397-1880 | every round of the rewriting loop keeps left <= pos <= 6, kinds that are not NUL, values that fit, and input order |
| SqliFold.RetypeReason | src/c/libinjection/libinjection_sqli.c:1510-1640 | when a two-token rule retypes a token, the old kind ranks above the new one or the token is one of those that may rewind |
| SqliFold.PairStageSmaller | src/c/libinjection/libinjection_sqli.c:1463-1700 | the two-token rules, and what follows when none ends the round, shrink the measure |
| SqliFold.StepSmaller | src/c/libinjection/libinjection_sqli.c:1361-1896 | folding stops on every input: a round that goes on is smaller in (unread input, more, tokens, backslashes and barewords with an underscore, 6 - left, kind ranks), although rules reset `left` to zero and flip a user word between bareword and function |
| SqliFold.Run | src/c/libinjection/libinjection_sqli.c:1397-1880 | runs of rounds end, in a sound window that asks for no further round |
| SqliFold.FoldBounds | src/c/libinjection/libinjection_sqli.c:1361-1896 | at most five tokens come out, or six of which the last is evil; all have a kind and stand in input order |
| SqliFold.FingerprintShape | src/c/libinjection/libinjection_sqli.c:1908-1966 | the fingerprint of every input is exactly "X", or at most five kinds without an X among them |
| SqliState.State.ApplyRule | src/c/libinjection/libinjection_sqli.c:1463-1878 | copying and retyping slots in place has the effect of the rule on the window |
| SqliState.State.CollapseWindow | src/c/libinjection/libinjection_sqli.c:1400-1431 | the five-token shapes are folded in place, the sixth token moving to slot 1 |
| SqliState.State.Round | src/c/libinjection/libinjection_sqli.c:1397-1880 | one round over the mutable slots, `pos` and `left` is one step of the machine; no slot above 5 exists to be touched |
| SqliState.State.FoldLoop | src/c/libinjection/libinjection_sqli.c:1397-1880 | the loop runs the machine to its end |
| SqliState.State.Fold | src/c/libinjection/libinjection_sqli.c:1361-1896 | the slots hold, at the front, the tokens the machine leaves, and the statistics agree |
| SqliState.State.Fingerprint | src/c/libinjection/libinjection_sqli.c:1908-1966 | the eight-byte buffer ends up as the C string that is the fingerprint of the input under the given flags |
| JsonText.QuoteInverts | src/c/cJSON.c:721-970 | for every NUL-free byte string, reading back the printed literal gives the string and stops behind its quote |
| JsonText.LiteralReads | src/c/cJSON.c:721-848 | a literal made of bytes that stand for themselves, two-character escapes and escaped scalar values (one unit, or a surrogate pair: RFC 2781, section 2.2), in any mixture, is read as the concatenation of the bytes they stand for, and reading stops behind its quote |
| JsonText.PiecesClose | src/c/cJSON.c:721-760 | the first pass over such a literal ends at its own closing quote |
| JsonText.PiecesDecode | src/c/cJSON.c:765-840 | the second pass gives the bytes of the pieces, in order |
| JsonText.Utf8Inverts | src/c/cJSON.c:650-710 | the bytes written for a code point are the one sequence with a lead byte for its length, continuation bytes behind it, the shortest possible length and that value (RFC 3629, section 3) |
| JsonText.PiecesAreEscape | src/c/cJSON.c:851-970 | what the printer writes for a string consists of such pieces, and they stand for the string |
| JsonGrammar.AcceptedExactly | src/c/cJSON.c:563-848 | a literal is well formed if and only if it is accepted and every unicode escape in it, counted from the left, has four hexadecimal digits before the closing quote; it is a literal of RFC 8259, section 7, with its surrogates in pairs, if and only if, besides, it holds no byte below 32 |
| JsonGrammar.MalformedReads | src/c/cJSON.c:563-596 | a literal outside the grammar that is accepted: an escape whose four digits are no hexadecimal digits is read as a zero byte |
| JsonGrammar.PassesDiverge | src/c/cJSON.c:721-822 | a literal on which the two passes lose alignment: digits that reach over an escaped quote make the second pass read that quote as a byte |
| JsonGrammar.ControlReads | src/c/cJSON.c:721-800 | a literal outside the grammar that is accepted: an unescaped control character is read as itself |
| JsonGrammar.LoneSurrogatesRejected | src/c/cJSON.c:600-660 | a literal in which, behind anything well formed, a surrogate stands without its partner is refused |
| JsonText.DecodeFits | src/c/cJSON.c:721-848 | on every input, malformed escapes included, the second pass of parse_string writes no more bytes than the first pass counted, even where the passes lose alignment |
| JsonLiteral.ParseHex4 | src/c/cJSON.c:563-596 | the loop computes the four digits, and zero when one of them is not a digit |
| JsonLiteral.WriteUtf8 | src/c/cJSON.c:670-712 | writing continuation bytes backwards produces the UTF-8 of the code point |
| JsonLiteral.Utf16LiteralToUtf8 | src/c/cJSON.c:600-718 | the escape is decoded in place, and a length of zero is returned exactly for a rejected one |
| JsonLiteral.ReadString | src/c/cJSON.c:721-848 | the literal is decoded into a buffer of the size the first pass asked for, every write inside it; on failure nothing stays allocated |
| JsonValue.NatInverts | src/c/cJSON.c:515-545 | the digits of a number read back as the number |
| JsonValue.DecimalLength | src/c/cJSON.c:493-560 | an integer up to 2^53 in magnitude takes at most 17 characters, so the 26-byte buffer never overruns |
| JsonParse.ItemsStep | src/c/cJSON.c:1396-1491 | one turn of the loop over elements is one element of the list that the grammar reads |
| JsonParse.MembersStep | src/c/cJSON.c:1556-1671 | one turn of the loop over members is one member of the list that the grammar reads |
| JsonRoundTrip.NumberInverts | src/c/cJSON.c:247-321 | a printed integer reads back, and reading stops behind its last digit |
| JsonRoundTrip.ItemsInvert | src/c/cJSON.c:1396-1553 | printed elements, in either style, read back in order, or are refused when one of them nests too deep |
| JsonRoundTrip.MembersInvert | src/c/cJSON.c:1556-1785 | printed members, in either style, read back in order with their keys, or are refused when one of them nests too deep |
| JsonRoundTrip.ValueInverts | src/c/cJSON.c:1267-1785 | wherever the printed text of a document stands in a buffer, parsing from there gives the document and stops behind it, if it nests no deeper than there is room for, and nothing otherwise |
| JsonRoundTrip.RoundTrip | src/c/cJSON.c:1044-1785 | for every document with NUL-free strings and integers up to 2^53, parsing the formatted or unformatted print gives the same document, order and keys included, and ends exactly at the terminator, if it nests at most 1000 deep; one that nests deeper is refused |
| JsonNode.Allocator.Delete | src/c/cJSON.c:193-216 | a list and everything below it is freed, each node and string exactly once, nothing else |
| JsonNode.Allocator.DeleteOne | src/c/cJSON.c:193-216 | an item, its strings and its children are freed exactly once |
| JsonNode.PartitionMembers | src/c/cJSON.c:193-216 | items that partition memory own pairwise disjoint parts of it |
| JsonList.Attach | src/c/cJSON.c:1415-1440 | a new item becomes the last of a list under construction; the others do not change |
| JsonList.CloseList | src/c/cJSON.c:1470-1478 | pointing the head's prev at the tail makes the list well formed |
| JsonParser.Parser.SkipWhitespace | src/c/cJSON.c:987-1010 | the cursor moves behind white space, and back onto the last byte at the end of the buffer |
| JsonParser.Parser.ParseValue | src/c/cJSON.c:1267-1319 | the item stands for the value the grammar reads, the cursor stands behind it, the depth is restored and the ledger holds what the item owns; on failure nothing new is live, and the text is at fault unless an allocation failed |
| JsonParser.Parser.ParseArray | src/c/cJSON.c:1396-1491 | the same for arrays, the nesting limit included; the children form a well-formed list |
| JsonParser.Parser.ParseObject | src/c/cJSON.c:1556-1671 | the same for objects, with the names moved from value to key |
| JsonParser.ParseWithLengthOpts | src/c/cJSON.c:1044-1121 | with every allocation allowed to fail: a document comes back exactly as the grammar reads the buffer (byte order mark and required terminator included) and is all that is newly live, or nothing is and the text is at fault or memory ran out |
| JsonEdit.RingWithoutOne | src/c/cJSON.c:2147-2181 | skipping an item, with the tail link mended, gives the wiring of the list without it |
| JsonEdit.RingWithOneMore | src/c/cJSON.c:2223-2255 | the five assignments of an insertion give the wiring of the longer list |
| JsonEdit.RingWithLast | src/c/cJSON.c:1916-1947 | the three assignments of an append give the wiring of the longer list |
| JsonEdit.RingReplaced | src/c/cJSON.c:2257-2304 | standing in for an item, at the head, in the middle or at the tail, gives the wiring of the updated list |
| JsonEdit.LinkLast | src/c/cJSON.c:1916-1947 | appending leaves the links of the longer list if and only if the list was empty or the item had no next pointer |
| JsonEdit.AddLast | src/c/cJSON.c:1916-1947 | the same with ownership and document: exactly then append refines appending to the sequence of children and to the document |
| JsonEdit.AddItemToArray | src/c/cJSON.c:1950-1953 | the same, with the arguments that are refused: null, and an array as its own item |
| JsonEdit.GetArrayItem | src/c/cJSON.c:1811-1828 | the item with the index, or null |
| JsonEdit.InsertItemInArray | src/c/cJSON.c:2223-2255 | insert refines insertion at the index, or is an append when the index is past the end, good if and only if the item may end the list; negative indices, null arguments and appending an array to itself are refused; in front of an existing item an array is linked into its own list |
| JsonEdit.DetachItemViaPointer | src/c/cJSON.c:2147-2181 | detach refines removal from the sequence; the item leaves whole, with links to nothing; null for null arguments |
| JsonEdit.ReplaceItemViaPointer | src/c/cJSON.c:2257-2304 | replace refines updating the sequence; the old item is freed exactly once; null arguments and a parent without children are refused |
| JsonCopy.StrDup | src/c/cJSON.c:159-178 | the copy is a string of its own with the same content |
| JsonCopy.CreateIntArray | src/c/cJSON.c:2510-2548 | the array stands for the numbers in order; nothing is made of a null vector or a negative count; on failure nothing stays allocated |
| JsonCopy.CopyItem | src/c/cJSON.c:2671-2710 | everything but the children is copied into memory of its own |
| JsonCopy.CopyKids | src/c/cJSON.c:2715-2740 | the copies of the children, in order, form a list that stands for the same documents |
| JsonCopy.Duplicate | src/c/cJSON.c:2671-2752 | a recursive duplicate shares no memory with its original and stands for the same document; a shallow one for the document without children; on failure nothing stays allocated |
| JsonPrinter.Printer.Ensure | src/c/cJSON.c:387-470 | room is granted exactly when the bytes, a terminator and what is there fit the limit (the given length, or INT_MAX for a growing buffer), unless an allocation fails; the text written so far survives growing |
| JsonPrinter.Printer.UpdateOffset | src/c/cJSON.c:473-483 | the cursor moves to the terminator |
| JsonPrinter.Printer.PrintNumber | src/c/cJSON.c:493-560 | the digits are written and passed |
| JsonPrinter.Printer.CountEscapes | src/c/cJSON.c:875-905 | the counting pass counts exactly what the copying pass writes |
| JsonPrinter.EscapePlain | src/c/cJSON.c:912-922 | a string that needs no escapes is copied as it is |
| JsonPrinter.Printer.EscapeInto | src/c/cJSON.c:924-962 | the slow copying loop writes the escaped string |
| JsonPrinter.Printer.PrintStringPtr | src/c/cJSON.c:851-970 | the quoted, escaped string and a terminator are written, exactly when they fit |
| JsonPrinter.Printer.PrintArray | src/c/cJSON.c:1494-1553 | the text of the array is written exactly when it fits with a byte to spare; the cursor stays before the closing bracket |
| JsonPrinter.Printer.PrintObject | src/c/cJSON.c:1674-1785 | the same for objects; the cursor stays before the closing line |
| JsonPrinter.Printer.PrintValue | src/c/cJSON.c:1322-1393 | printing any value succeeds exactly when the length of its text plus two fits the limit, allocation failures aside, and then the buffer holds the text and a terminator |
| JsonPrinter.PrintPreallocated | src/c/cJSON.c:1245-1264 | succeeds exactly when the given length is at least the length of the text plus two, writes the same bytes as the growing printer and none beyond the given length, and reports the length of the text for arrays and objects |
| JsonPrinter.Print | src/c/cJSON.c:1136-1201 | a buffer of its own, cut to size, holds the text; on failure nothing stays allocated |
| JsonReparse.PrintThenParse | src/c/cJSON.c:1044-1212 | a document in memory, printed and parsed again, gives a separate, equal document and leaves nothing else allocated; it fails only when memory runs out, the text outgrows an int, or the document nests deeper than 1000 |
| JsonMinify.ErasedStep | src/c/cJSON.c:2803-2849 | one turn of the loop removes or keeps what the eraser does |
| JsonMinify.MinifyString | src/c/cJSON.c:2781-2801 | a string is copied up to the quote at which the eraser ends it |
| JsonMinify.SkipOneLineComment | src/c/cJSON.c:2754-2765 | skips to behind the newline, or to the end |
| JsonMinify.SkipMultiLineComment | src/c/cJSON.c:2767-2779 | skips to behind the closing mark, or to the end |
| JsonMinify.Minify | src/c/cJSON.c:2803-2849 | the buffer ends up as the erased text, a terminator, and beyond that every byte as it was: nothing is written ahead of the reading cursor |
| JsonMinifyLaws.ErasedTwice | src/c/cJSON.c:2803-2849 | minifying is idempotent on every text |
| JsonMinifyLaws.PrintedString | src/c/cJSON.c:2781-2801 | the minifier finds the end of a printed string, except one that ends in a backslash, whose closing quote it takes for an escaped one |
| JsonMinifyLaws.CleanErased | src/c/cJSON.c:2781-2849 | the formatted text of a document in which no string or key ends in a backslash minifies to its unformatted text, in any context |
| JsonMinifyLaws.BadErased | src/c/cJSON.c:2781-2801 | a string that swallows its end makes the result wrong, unless it is the last thing in nested arrays |
| JsonMinifyLaws.MinifyUnformats | src/c/cJSON.c:2781-2849 | minifying the formatted print gives the unformatted print if and only if no string or key ends in a backslash, a string at the very end of nested arrays excepted |
| JsonMinifyLaws.MinifyKeepsBlank | src/c/cJSON.c:2781-2801 | a concrete document for which it does not |
| JsonCompare.ToleranceShows | src/c/cJSON.c:486-490 | the tolerance admits a different number, no larger in magnitude, if and only if the magnitude is 2^52 or more |
| JsonCompare.SameSymmetric | src/c/cJSON.c:2951-3074 | the comparison is symmetric on all documents |
| JsonCompare.SameMeans | src/c/cJSON.c:2951-3074 | the comparison holds for documents that are equal with objects as unordered maps and in which repeated keys (under the chosen case mode) agree; with integers below 2^52 it holds for no others |
| JsonCompare.SameIsEquality | src/c/cJSON.c:2951-3074 | without repeated keys and with integers below 2^52 the comparison is equality with objects as unordered maps |
| JsonCompare.SameAsItself | src/c/cJSON.c:2951-3074 | a document compares equal to its copies when repeated keys agree in every object of it; with integers below 2^52, only then |
| JsonCompare.AgreeingMaps | src/c/cJSON.c:2951-3074 | the two searches over the members succeed with equal documents exactly when both objects are the same map and repeat keys only with the same document |
| JsonCompareTree.KeysEqual | src/c/cJSON.c:133-154 | the two string comparisons decide equality of the folded strings |
| JsonCompareTree.GetObjectItem | src/c/cJSON.c:1840-1870 | the first member with the key, or null |
| JsonCompareTree.Compare | src/c/cJSON.c:2951-3074 | the recursion over nodes answers true whenever the documents compare equal or the items are the same node, and decides the comparison of the documents on separate trees, and on any two trees of which one repeats keys only with equal documents |
| JsonCompareTree.DuplicateCompares | src/c/cJSON.c:2671-3074 | unless memory runs out, a duplicate compares equal to its original when repeated keys agree, and with integers below 2^52 only then; deleting it restores the ledger |
| Html5.NextGood | src/c/libinjection/libinjection_html5.c:63-830 | every call keeps the cursor inside the input (and on a greater-than sign while a tag close is pending); its token lies inside the input, not before the place it started from and not behind the one it leaves; it looks like its kind (a tag name without white space, slash or closing bracket; a quoted value behind its quote and without it; a comment without its end; and so on); the measure shrinks; and the tokenizer is through only where the input ends or a byte of 255 stands |
| Html5.DataGood | src/c/libinjection/libinjection_html5.c:141-168 | the same for text |
| Html5.TagOpenGood | src/c/libinjection/libinjection_html5.c:173-212 | the same for an open angle bracket, which may be emitted without advancing |
| Html5.BeforeNameGood | src/c/libinjection/libinjection_html5.c:312-353 | the same between attributes |
| Html5.ValueGood | src/c/libinjection/libinjection_html5.c:436-457 | the same for attribute values, although an empty unquoted value is emitted without advancing |
| Html5.TokensOrdered | src/c/libinjection/libinjection_html5.c:91-96 | over a whole run tokens are in order and disjoint, each looks like its kind, and there are no more than the measure allows |
| Html5.TokensLinear | src/c/libinjection/libinjection_html5.c:68-96 | from each of the five starts there are at most 2 * length + 1 tokens |
| Html5.RunsToEnd | src/c/libinjection/libinjection_html5.c:63-830 | a run from any sound cursor that is not at rest goes on to the end of the input or to a byte of 255, and all its tokens lie before that |
| Html5.AllIsRead | src/c/libinjection/libinjection_html5.c:68-96 | without a byte of 255 the whole input is read from each of the five starts |
| Html5.StopsForGood | src/c/libinjection/libinjection_html5.c:91-139 | after an answer of zero every further answer is zero |
| Html5State.Tokenizer.SkipWhiteSpace | src/c/libinjection/libinjection_html5.c:114-133 | stops behind white space and NULs; answers -1 at the end and at a byte of 255 |
| Html5State.Tokenizer.StateComment | src/c/libinjection/libinjection_html5.c:698-778 | the loop that hops from dash to dash finds the first place where a dash, NULs, a dash or exclamation mark and a greater-than sign follow each other, or none |
| Html5State.Tokenizer.StateCdata | src/c/libinjection/libinjection_html5.c:780-807 | finds the first closing mark |
| Html5State.Tokenizer.StateBogusComment2 | src/c/libinjection/libinjection_html5.c:620-650 | finds the first closing mark |
| Html5State.Tokenizer.StateMarkupDeclarationOpen | src/c/libinjection/libinjection_html5.c:655-685 | dispatches on doctype, cdata and comments |
| Html5State.Tokenizer.StateTagName | src/c/libinjection/libinjection_html5.c:256-307 | state, cursor, flag and token after the call are those of the step function |
| Html5State.Tokenizer.StateData | src/c/libinjection/libinjection_html5.c:141-168 | state, cursor, flag and token after the call are those of the step function |
| Html5State.Tokenizer.StateTagOpen | src/c/libinjection/libinjection_html5.c:173-212 | state, cursor, flag and token after the call are those of the step function |
| Html5State.Tokenizer.StateAttributeName | src/c/libinjection/libinjection_html5.c:355-402 | state, cursor, flag and token after the call are those of the step function |
| Html5State.Tokenizer.StateBeforeAttributeName | src/c/libinjection/libinjection_html5.c:312-353 | does the step, the tail call being a loop |
| Html5State.Tokenizer.StateSelfClosingStartTag | src/c/libinjection/libinjection_html5.c:573-591 | state, cursor, flag and token after the call are those of the step function |
| Html5State.Tokenizer.StateAfterAttributeName | src/c/libinjection/libinjection_html5.c:407-431 | state, cursor, flag and token after the call are those of the step function |
| Html5State.Tokenizer.StateBeforeAttributeValue | src/c/libinjection/libinjection_html5.c:436-457 | state, cursor, flag and token after the call are those of the step function |
| Html5State.Tokenizer.StateAttributeValueQuote | src/c/libinjection/libinjection_html5.c:459-487 | state, cursor, flag and token after the call are those of the step function |
| Html5State.Tokenizer.StateAttributeValueNoQuote | src/c/libinjection/libinjection_html5.c:504-536 | state, cursor, flag and token after the call are those of the step function |
| Html5State.Tokenizer.StateAfterAttributeValueQuoted | src/c/libinjection/libinjection_html5.c:541-565 | state, cursor, flag and token after the call are those of the step function |
| Html5State.Tokenizer.NextToken | src/c/libinjection/libinjection_html5.c:91-96 | from a sound state the call never reports an error, agrees with the step function in state and token, and leaves a sound state |
| Xss.DecodeChar | src/c/libinjection/libinjection_xss.c:71-158 | every step consumes between one byte and all of them |
| Xss.HtmlDecodeCharAt | src/c/libinjection/libinjection_xss.c:71-158 | reading digits from the left and giving up early agrees with the value of the whole run of digits |
| Xss.EntityDecodes | src/c/libinjection/libinjection_xss.c:71-158 | every decimal or hexadecimal entity up to 0x1000FF decodes to its value, with any number of leading zeros, with or without the semicolon |
| Xss.EntitiesDecode | src/c/libinjection/libinjection_xss.c:71-158 | text written in entities decodes to what they stand for, in any mixture of the notations |
| Xss.HtmlEncodeStartsWith | src/c/libinjection/libinjection_xss.c:906-951 | streaming decode-and-compare holds exactly when the word is a prefix of the fully decoded text, without leading codes up to 32, without codes 0 and 10, upcased and cut to bytes |
| Xss.CStrCaseCmpWithNull | src/c/libinjection/libinjection_xss.c:863-892 | zero exactly when the word is the upcased text without its NULs |
| XssDetect.IsBlackTag | src/c/libinjection/libinjection_xss.c:953-984 | the loop over the table decides the tag |
| XssDetect.IsBlackAttr | src/c/libinjection/libinjection_xss.c:986-1034 | the loops over the tables find the first matching name |
| XssDetect.IsBlackUrl | src/c/libinjection/libinjection_xss.c:1036-1076 | the four prefixes are looked for behind bytes outside printable ASCII |
| XssDetect.IsXss | src/c/libinjection/libinjection_xss.c:1078-1168 | the loop ends, never with an error, and answers one exactly when some token of the stream is black, given the attribute name right before it |
| XssDetect.DetectXss | src/c/libinjection/libinjection_xss.c:1179-1203 | the verdict is positive exactly when it is in one of the five contexts |

## Left out

- The gateway's own modules, the test suites and the build files: their source is process, network and build plumbing, or is not part of this model.
- The rows of `sql_keywords` and of the XSS name tables: tables are parameters, sorted and upper-case where the code relies on it.
- The lookup callback of the SQL tokenizer: a parameter, a function of the kind of lookup and the word.
- `libinjection_is_sqli`, the blacklist of fingerprints and `libinjection_sqli_not_whitelist`: policy data and heuristics.
- Floating point: numbers are integers. Numerals other than exact integers go through a parameter that stands for `strtod`, restricted to integral values; `%1.15g`, NaN, infinity and locale decimal points are not modelled, nor is the saturated second field `valueint`.
- Whether the bytes from 128 up in a string literal are valid UTF-8: the parser does not look at it, and JsonGrammar takes every such byte for a character.
- `cJSON_Raw`, references and constant names: no item shares its children or its name, so deletion follows everything.
- The global error pointer, and the end position that is reported on failure.
- The `realloc` path of the printer, `cJSON_PrintBuffered`, and the thin wrappers (`Create*`, `Is*`, `Add*ToObject`, replacement by key).
- Overflow of `size_t` offsets and of the statistics counters: offsets and counters are natural numbers. INT_MAX is modelled where the code tests it.
- Null pointers where the code merely refuses them: parsers, printers and the HTML tokenizer are called with their state.
- JsonEdit.DetachItemViaPointer: asks that the item is in the list of the parent, because the code does not check it; so does JsonEdit.ReplaceItemViaPointer.
- SqliState.State.Fold: has six token slots instead of eight, which shows that no slot above 5 is touched, but not what the unused ones hold; the stored length of a token is the length of its value, also after an evil fingerprint rewrites the value.
- JsonNode.Allocator.Delete: does not clear the string pointers of an item just before freeing it, because nobody can read them any more.
- JsonParser.Parser.ParseKey: sets the kind of an item back to invalid once its name is read, where the code leaves it at string until the value is read.
- JsonCopy.CreateIntArray: hangs the finished list into the array at the end, where the code sets the child pointer with the first item; the same holds of JsonCopy.CopyKids.
- JsonEdit.AddItemToArray: asks that the item shares no memory with the list, because the code neither checks nor mends that; so do insertion and replacement, except that an array may be put into itself.
- JsonCompareTree.Compare: on two trees that share nodes, both with differing documents under a repeated key, only says that equal documents are found equal; there the code also takes a shared node for equal to itself.
- `libinjection_sqli_callback`, version strings and the printing of tokens for debugging.

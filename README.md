# alco core, modelled in Dafny

This project models the core of `alco`, the compiler for the Alpha language. It also models the two Python scripts that build the compiler and run its test suite. Each source file of the core has one Dafny module of the same name.

- **Front end.** `TokenStream` models the token stream with its one-token putback. `StringCollector` models the growable character buffer of the lexer. `Keywords` and `Operators` hold the reserved words and overloadable operators. `StringParser` decodes string literals into bytes. `IntValue` reads integer literals and gives them a default type. `ExpressionParser` is the shunting-yard parser. `OpComma` models tuples and their flattening into argument lists.
- **Types and names.** `Types` models `Type`: its construction from a name, its one-letter encoding and the decoder for it, coercion, equality and display. `FunctionLike` models mangled names and the equivalence of declarations. `MangleReader` models the scanner over mangled names. `Resolver` models variable and function resolution, with the shared disambiguation counts and the overload choice between exact matches and promotions.
- **Passes and back end.** `ConstantFold` models integer and real constant folding. `Cast` models the table of allowed explicit casts. `Counter` models the per-prefix temporary numbering. `Block` models basic blocks and their SSA numbering. `IndentOutput` models the indenting output stream. `ConfigFile` models the `key = value` configuration reader.
- **Scripts.** `Build` models `build.py` over a file tree that maps paths to entries: the rebuild rule, the source walks and the merging of class directories and unpacked jars into one tree of symbolic links. `TestHarness` models `test.py`: the fixture header, the comparison of results, the cleanup and the suite loop that stops at the first failure.

Where the source updates an object's fields, the model is a class whose methods are proved against functions of the old state. Pure code is modelled with datatypes, functions and lemmas. `Wrappers` (Option and Result), `Text` (string helpers), `Token`, `Ast` and `IntLimits` are shared definitions.

## Model

| member | source | states |
|---|---|---|
| Counter.Issue | src/java/me/pavlina/alco/llvm/Counter.java:20-29 | the temporary handed out is the prefix's next value (1 for an unseen prefix); afterwards that prefix's next value is one higher and every other prefix's is unchanged |
| Counter.IssueManyConsecutive | src/java/me/pavlina/alco/llvm/Counter.java:20-29 | n calls on one prefix return n consecutive numbers starting at the prefix's next value |
| Counter.FreshCounterStartsAtOne | src/java/me/pavlina/alco/llvm/Counter.java:14-29 | on a new counter, n calls on one prefix return 1, 2, ..., n |
| Counter.IssueManyIndependent | src/java/me/pavlina/alco/llvm/Counter.java:21-27 | any number of calls on one prefix leave another prefix's next temporary unchanged |
| Counter.ResetThenSetRestores | src/java/me/pavlina/alco/llvm/Counter.java:34-54 | setCount(p, resetCount(p)) gives every prefix the same next temporary as before |
| Counter.Counter.constructor | src/java/me/pavlina/alco/llvm/Counter.java:14-16 | a new counter holds no counts |
| Counter.Counter.GetTemporary | src/java/me/pavlina/alco/llvm/Counter.java:20-29 | the returned temporary and the new counts are those of Issue |
| Counter.Counter.ResetCount | src/java/me/pavlina/alco/llvm/Counter.java:34-41 | returns the stored count, or 1 when absent, and removes the entry, so the prefix starts again at 1 |
| Counter.Counter.SetCount | src/java/me/pavlina/alco/llvm/Counter.java:49-54 | a null count is an error (NullPointerException) and changes nothing; otherwise the count is stored for the prefix |
| Block.Numbered | src/java/me/pavlina/alco/llvm/Block.java:53-57 | numbering keeps the number of instructions |
| Block.NumberedAt | src/java/me/pavlina/alco/llvm/Block.java:53-57 | an instruction that needs an id gets start plus the number of earlier instructions that need one; every other instruction is left as it was |
| Block.NeedingIdBound | src/java/me/pavlina/alco/llvm/Block.java:53-57 | at most every instruction takes a number, and exactly all of them iff every one needs an id |
| Block.NumberedDistinct | src/java/me/pavlina/alco/llvm/Block.java:53-57 | two instructions that both need ids receive different numbers, the earlier one the smaller |
| Block.NeedingIdGrows | src/java/me/pavlina/alco/llvm/Block.java:53-57 | an instruction needing an id is counted before the end of the list |
| Block.NumberStep | src/java/me/pavlina/alco/llvm/Block.java:53-57 | numbering one more instruction appends it, renumbered when it needs an id, and advances the count by one exactly then |
| Block.Block.constructor | src/java/me/pavlina/alco/llvm/Block.java:15-17 | a new block has no instructions and no id |
| Block.Block.IsTerminated | src/java/me/pavlina/alco/llvm/Block.java:31-34 | true iff the list is non-empty and its last instruction is a terminator |
| Block.Block.Add | src/java/me/pavlina/alco/llvm/Block.java:23-27 | adds and returns true iff the block was not terminated; a terminated block is left unchanged |
| Block.Block.Number | src/java/me/pavlina/alco/llvm/Block.java:49-59 | an unlabeled block takes `start` as its id and a labeled one keeps its id; the instructions become Numbered from the next number and the result is the first unused number |
| TokenStream.TokenAt | src/java/me/pavlina/alco/lex/TokenStream.java:38-43 | the token at the position, or the NO_MORE token with empty text past the end |
| TokenStream.TokenStream.constructor | src/java/me/pavlina/alco/lex/TokenStream.java:25-28 | the stream starts at position 0 over the lexer's tokens |
| TokenStream.TokenStream.Next | src/java/me/pavlina/alco/lex/TokenStream.java:38-43 | returns the token at the position and advances by one, or NO_MORE without advancing at the end |
| TokenStream.TokenStream.Peek | src/java/me/pavlina/alco/lex/TokenStream.java:59-64 | returns what Next would return, without moving |
| TokenStream.TokenStream.Last | src/java/me/pavlina/alco/lex/TokenStream.java:52-55 | null iff the position is below 2, otherwise the token two before the position |
| TokenStream.TokenStream.Putback | src/java/me/pavlina/alco/lex/TokenStream.java:70-72 | at position 0 the list's `set` throws, reported as false with the stream unchanged; otherwise it steps back one and overwrites that slot, so Peek (and the next Next) returns the put-back token |
| TokenStream.NextThenPutback | src/java/me/pavlina/alco/lex/TokenStream.java:38-72 | reading a token and putting it back makes the next read return the same token |
| StringCollector.DoubledSize | src/java/me/pavlina/alco/lex/StringCollector.java:59-62 | the doubling loop ends on size times a power of two that fits `need`, less than twice `need` when it grew, and on `size` itself when it already fits |
| StringCollector.StringCollector.Default | src/java/me/pavlina/alco/lex/StringCollector.java:16-18 | the default capacity is 16 and nothing is collected |
| StringCollector.StringCollector.constructor | src/java/me/pavlina/alco/lex/StringCollector.java:23-26 | the buffer has the requested capacity and nothing is collected |
| StringCollector.StringCollector.EnsureSpace | src/java/me/pavlina/alco/lex/StringCollector.java:55-66 | afterwards len + n characters fit, the capacity is the old one times a power of two (so it never shrinks), the contents are kept, and the buffer is replaced only when it was too small |
| StringCollector.StringCollector.AppendChar | src/java/me/pavlina/alco/lex/StringCollector.java:30-33 | the contents grow by the character |
| StringCollector.StringCollector.Append | src/java/me/pavlina/alco/lex/StringCollector.java:37-41 | the contents grow by the string |
| StringCollector.StringCollector.ToString | src/java/me/pavlina/alco/lex/StringCollector.java:45-47 | the result is everything appended since construction or the last clear |
| StringCollector.StringCollector.Clear | src/java/me/pavlina/alco/lex/StringCollector.java:51-53 | the contents become empty and the buffer is kept |
| StringCollector.AppendsConcatenate | src/java/me/pavlina/alco/lex/StringCollector.java:30-47 | appending "ab" then 'c' to a one-character collector reads back "abc" |
| MangleReader.DigitRunEnd | src/java/me/pavlina/alco/language/MangleReader.java:52-73 | the end of the digit run: only digits before it and a non-digit (or the end) at it |
| MangleReader.ReadIntAsWritten | src/java/me/pavlina/alco/language/MangleReader.java:46-75 | fails iff there is no character or it is not a digit; otherwise the 32-bit value of the digit run, with the position left on the run's last digit when a non-digit stops it |
| MangleReader.ReadInt | src/java/me/pavlina/alco/language/MangleReader.java:42-46 | fails iff there is no character or it is not a digit; otherwise the 32-bit value of the digits, with the position just past them |
| MangleReader.ReadString | src/java/me/pavlina/alco/language/MangleReader.java:81-87 | fails iff the length is negative or runs past the end; otherwise the next `length` characters and the position after them |
| MangleReader.DigitRunOfDecimal | src/java/me/pavlina/alco/language/MangleReader.java:52-73 | the digit run of a decimal numeral followed by a non-digit is exactly the numeral |
| MangleReader.ReadIntOfDecimal | src/java/me/pavlina/alco/language/MangleReader.java:46-87 | reading a decimal count and then that many characters returns the count and the name, ending at the end of the input |
| MangleReader.ReadIntAsWrittenRereadsLastDigit | src/java/me/pavlina/alco/language/MangleReader.java:68-72 | on "3abc" the as-written reader stops on the '3' and the next three characters are "3ab"; the intended one gives "abc" |
| MangleReader.DigitStep | src/java/me/pavlina/alco/language/MangleReader.java:65-66 | one more digit multiplies the 32-bit value so far by ten and adds the digit |
| MangleReader.MangleReader.constructor | src/java/me/pavlina/alco/language/MangleReader.java:13-16 | the reader starts at position 0 of the string |
| MangleReader.MangleReader.HasMore | src/java/me/pavlina/alco/language/MangleReader.java:20-22 | true iff the position is before the end |
| MangleReader.MangleReader.NextChar | src/java/me/pavlina/alco/language/MangleReader.java:27-31 | an error iff at the end (position unchanged); otherwise the current character, advancing by one |
| MangleReader.MangleReader.PeekChar | src/java/me/pavlina/alco/language/MangleReader.java:36-40 | an error iff at the end; otherwise the current character, without advancing |
| MangleReader.MangleReader.NextInt | src/java/me/pavlina/alco/language/MangleReader.java:46-75 | the loop returns ReadIntAsWritten's value and position, or its error with the position unchanged |
| MangleReader.MangleReader.NextString | src/java/me/pavlina/alco/language/MangleReader.java:81-87 | returns ReadString's characters and position, or its error with the position unchanged |
| IndentOutput.Spaces | src/java/me/pavlina/IndentOutputStream.java:33-34 | `indent` spaces, none for a negative indent |
| IndentOutput.FirstNewline | src/java/me/pavlina/IndentOutputStream.java:30-31 | the index of the first newline |
| IndentOutput.RenderLine | src/java/me/pavlina/IndentOutputStream.java:29-38 | within a line only the first byte is indented, and only when the flag is set |
| IndentOutput.RenderIsIndentLines | src/java/me/pavlina/IndentOutputStream.java:26-38 | writing bytes one at a time from the initial state equals the line-by-line reference: indent before the first byte and before any byte after a newline, newlines unindented, every byte once and in order |
| IndentOutput.NewlineStep | src/java/me/pavlina/IndentOutputStream.java:30-31 | a newline resets the flag, so both sides agree across it |
| IndentOutput.RenderSnoc | src/java/me/pavlina/IndentOutputStream.java:29-38 | rendering one more byte appends what write sends for it under the flag the earlier bytes left |
| IndentOutput.IndentOutputStream.constructor | src/java/me/pavlina/IndentOutputStream.java:19-24 | nothing written yet and the indent flag set |
| IndentOutput.IndentOutputStream.Write | src/java/me/pavlina/IndentOutputStream.java:29-38 | sends the indent first when the flag is set and the byte is not a newline, then the byte; the flag is then set iff the byte was a newline |
| IndentOutput.WriteAll | src/java/me/pavlina/IndentOutputStream.java:19-38 | bytes written one by one through a fresh stream come out as the line-by-line reference |
| OpComma.SetOperands | src/java/me/pavlina/alco/ast/OpComma.java:48-54 | a tuple with children takes the new operands; the placeholder is left as it is |
| OpComma.LeftNest | src/java/me/pavlina/alco/ast/OpComma.java:40-46 | a left-associative chain of commas builds a tuple |
| OpComma.LeavesOfLeftNest | src/java/me/pavlina/alco/ast/OpComma.java:104-111 | unpacking a left-nested tuple gives its elements back, left to right |
| OpComma.RightChildNotFlattened | src/java/me/pavlina/alco/ast/OpComma.java:110 | a tuple in the right position is appended whole |
| OpComma.PlaceholderContributesNothing | src/java/me/pavlina/alco/ast/OpComma.java:105 | a placeholder on the left adds nothing |
| OpComma.Unpack | src/java/me/pavlina/alco/ast/OpComma.java:104-111 | appends exactly the tuple's leaves to the caller's list |
| OpComma.CallArguments | src/java/me/pavlina/alco/ast/OpComma.java:104-111 | a tuple argument gives its leaves, anything else a one-element list |
| Keywords.Listed | src/java/me/pavlina/alco/language/Keywords.java:48-50 | the search finds the word iff it is in the list |
| Keywords.IsKeywordWith | src/java/me/pavlina/alco/language/Keywords.java:46-57 | true iff the word is in KEYWORDS, or type names are included and it is in TYPES |
| Keywords.IsKeyword | src/java/me/pavlina/alco/language/Keywords.java:35-38 | true iff the word is in KEYWORDS |
| Keywords.NarrowImpliesWide | src/java/me/pavlina/alco/language/Keywords.java:35-57 | a keyword without type names is a keyword with them |
| Keywords.TypesOnlyWhenIncluded | src/java/me/pavlina/alco/language/Keywords.java:25-57 | a type name is a keyword with type names included and not without |
| Operators.Zip | src/java/me/pavlina/alco/language/Operators.java:29-34 | the map the put loop builds has exactly the listed keys |
| Operators.ZipAt | src/java/me/pavlina/alco/language/Operators.java:31-34 | with distinct keys every key maps to the value at its own index |
| Operators.ZipValues | src/java/me/pavlina/alco/language/Operators.java:31-34 | every value in the built map is one of the listed values |
| Operators.Initialise | src/java/me/pavlina/alco/language/Operators.java:17-35 | the static initialiser's loop builds both maps from the two arrays, index by index |
| Operators.ListsDistinct | src/java/me/pavlina/alco/language/Operators.java:19-28 | no operator and no id appears twice in its array |
| Operators.TablesPairIndexWise | src/java/me/pavlina/alco/language/Operators.java:18-34 | both arrays hold 29 entries and the two maps pair them index by index, in both directions |
| Operators.IdIsOneChar | src/java/me/pavlina/alco/language/Operators.java:24-28 | every mangled operator id is one character long |
| Operators.TablesInverse | src/java/me/pavlina/alco/language/Operators.java:31-45 | ID_TO_OPERATOR undoes OPERATOR_TO_ID |
| Operators.TablesInverseBack | src/java/me/pavlina/alco/language/Operators.java:31-45 | OPERATOR_TO_ID undoes ID_TO_OPERATOR |
| Operators.IsOverloadable | src/java/me/pavlina/alco/language/Operators.java:49-52 | true iff the operator is one of the 29 listed operators |
| ConfigFile.Decomment | src/java/me/pavlina/alco/compiler/ConfigFile.java:32-36 | the prefix before the first '#', the whole line when there is none; the result has no '#' |
| ConfigFile.SplitEntry | src/java/me/pavlina/alco/compiler/ConfigFile.java:38-45 | nothing iff the line has no '='; otherwise key and value are the trimmed text before and after the first '=' |
| ConfigFile.Entries | src/java/me/pavlina/alco/compiler/ConfigFile.java:29-48 | one entry (or none) per line |
| ConfigFile.EntriesAt | src/java/me/pavlina/alco/compiler/ConfigFile.java:29-48 | the i-th entry is the i-th line parsed on its own |
| ConfigFile.ReadLine | src/java/me/pavlina/alco/compiler/ConfigFile.java:30-47 | one pass of the loop puts the line's entry, if any, into the map |
| ConfigFile.Read | src/java/me/pavlina/alco/compiler/ConfigFile.java:22-51 | the loop's map is the lines' entries put in order over the initial map |
| ConfigFile.ReadAllSnoc | src/java/me/pavlina/alco/compiler/ConfigFile.java:29-48 | reading one more line puts that line's entry over what the earlier lines gave |
| ConfigFile.PutSome | src/java/me/pavlina/alco/compiler/ConfigFile.java:47 | an entry overwrites the key's value |
| ConfigFile.LastEntryWins | src/java/me/pavlina/alco/compiler/ConfigFile.java:47 | a key ends up with the value of the last entry that sets it |
| ConfigFile.UnsetKeyKept | src/java/me/pavlina/alco/compiler/ConfigFile.java:40-47 | a key no entry sets keeps its earlier value, or stays absent |
| ConfigFile.LastLineWins | src/java/me/pavlina/alco/compiler/ConfigFile.java:29-48 | a later line overrides an earlier one: the key's value comes from the last line that sets it |
| ConfigFile.CommentHidesEntry | src/java/me/pavlina/alco/compiler/ConfigFile.java:33-42 | an '=' after a '#' gives no entry |
| ConfigFile.EntryBeforeComment | src/java/me/pavlina/alco/compiler/ConfigFile.java:33-45 | "a = b # c" gives key "a" and value "b" |
| ConfigFile.TrimmedEntry | src/java/me/pavlina/alco/compiler/ConfigFile.java:44-45 | key and value lose their surrounding blanks |
| Cast.LiteralRange | src/java/me/pavlina/alco/codegen/Cast.java:72-97 | the literal range of a destination always holds 0 |
| Cast.LiteralRanges | src/java/me/pavlina/alco/codegen/Cast.java:72-97 | the 8- and 32-bit ranges are those of the signed and unsigned primitive types |
| Cast.UnsignedLiteralUnchecked | src/java/me/pavlina/alco/codegen/Cast.java:63-67 | as written, the literal -1 cast to u32 is accepted; with the intended test it is refused as out of range |
| Cast.LiteralInRange | src/java/me/pavlina/alco/codegen/Cast.java:63-104 | an integer literal cast to an integer type is accepted iff it lies in the destination's range, and otherwise fails with the out-of-range error |
| Cast.IdenticalAccepted | src/java/me/pavlina/alco/codegen/Cast.java:107-109 | a cast between equal types (ignoring const) is accepted when no integer literal is checked |
| Cast.SignAndWidthRefused | src/java/me/pavlina/alco/codegen/Cast.java:111-116 | a cast that changes both sign and width fails with the sign-and-width error |
| Cast.ScalarCasts | src/java/me/pavlina/alco/codegen/Cast.java:107-181 | among integers, floats and booleans a cast is accepted iff it is not a combined sign and width change and not between a float and a boolean |
| Cast.PointerIntegerCasts | src/java/me/pavlina/alco/codegen/Cast.java:191-217 | pointers convert to and from unsigned integers iff the integer is at least a pointer wide, with the narrow errors otherwise, and never to or from signed integers |
| Cast.ObjectCasts | src/java/me/pavlina/alco/codegen/Cast.java:107-261 | an object type casts only to an equal object type; anything else is an invalid cast |
| Cast.NothingCastsToNull | src/java/me/pavlina/alco/codegen/Cast.java:258-261 | no type casts to the null type |
| Cast.CheckTable | src/java/me/pavlina/alco/codegen/Cast.java:107-261 | equal operands always cast; the "NOT IMPLEMENTED YET" exceptions come only from an array cast to a pointer or a boolean, and the exception from Type.equals only from an array cast to a pointer |
| Cast.CheckTypesAsWritten | src/java/me/pavlina/alco/codegen/Cast.java:57-261 | as written, a destination that is not a signed integer never has a literal checked, so the table alone decides; the out-of-range error needs a literal, an integer source and a signed destination |
| Cast.CheckTypes | src/java/me/pavlina/alco/codegen/Cast.java:57-261 | only an integer literal cast to an integer type can be out of range, and without a literal the table alone decides |
| Cast.ArrayOfBareToPointer | src/java/me/pavlina/alco/codegen/Cast.java:219-223 | casting `string[]` to `string*` throws from Type.equals before the "NOT IMPLEMENTED YET" branch is reached |
| IntValue.DigitIn | src/java/me/pavlina/alco/ast/IntValue.java:52-53 | a digit's value lies below the radix, or is -1 for a non-digit |
| IntValue.SplitRadix | src/java/me/pavlina/alco/ast/IntValue.java:33-51 | the radix is 2, 8, 10 or 16 and the digits are the text or the text without its two-character prefix |
| IntValue.SplitPrefixed | src/java/me/pavlina/alco/ast/IntValue.java:33-47 | each of the 0x, 0d, 0o and 0b prefixes selects its radix and is stripped |
| IntValue.Unprefixed | src/java/me/pavlina/alco/ast/IntValue.java:48-51 | text without a leading '0' and a second character is read whole in radix 10 |
| IntValue.LetterDigit | src/java/me/pavlina/alco/ast/IntValue.java:52-53 | the letter written for a digit reads back as that digit |
| IntValue.RadixDigitsValue | src/java/me/pavlina/alco/ast/IntValue.java:52-53 | the digits written for a number are valid in the radix and their value is the number |
| IntValue.AppendDigit | src/java/me/pavlina/alco/ast/IntValue.java:52-53 | one more digit multiplies the value by the radix and adds the digit |
| IntValue.DigitsParse | src/java/me/pavlina/alco/ast/IntValue.java:52-56 | the digits of a number parse back to that number |
| IntValue.PrefixedLiteralRoundTrip | src/java/me/pavlina/alco/ast/IntValue.java:27-57 | a number written with the prefix of its radix reads back as that number |
| IntValue.DecimalLiteralRoundTrip | src/java/me/pavlina/alco/ast/IntValue.java:48-57 | a number written in decimal without a prefix reads back as that number |
| IntValue.RadixDigitsLead | src/java/me/pavlina/alco/ast/IntValue.java:33-51 | only numbers below the radix are written with a leading '0', so decimal output never looks prefixed |
| IntValue.InvalidDigitRejected | src/java/me/pavlina/alco/ast/IntValue.java:52-56 | a character that is not a digit of the radix makes the literal an invalid integer |
| IntValue.DefaultTypeName | src/java/me/pavlina/alco/ast/IntValue.java:96-111 | an error iff the value is outside the i64..u64 span, the magnitude error then, and otherwise one of int, i64, u64 |
| IntValue.DefaultTypeHoldsValue | src/java/me/pavlina/alco/ast/IntValue.java:96-111 | the default type holds the value and no earlier candidate of int, i64, u64 does |
| IntValue.UnsignedLiteralTyped | src/java/me/pavlina/alco/ast/IntValue.java:96-111 | a literal from a token has a type iff it does not exceed the u64 maximum |
| StringParser.SimpleEscape | src/java/me/pavlina/alco/parse/StringParser.java:39-59 | an escape letter gives a byte iff it is one of the ten the switch lists besides x |
| StringParser.ToByte | src/java/me/pavlina/alco/parse/StringParser.java:73 | the byte cast keeps values 0..255 as they are |
| StringParser.ScanAsWritten | src/java/me/pavlina/alco/parse/StringParser.java:35-91 | the loop as written gives at most one byte for each character it reads |
| StringParser.ParseAsWritten | src/java/me/pavlina/alco/parse/StringParser.java:21-95 | as written, a string token's bytes are never more than the characters between its quotes, as the comment on the buffer's capacity promises |
| StringParser.Decode | src/java/me/pavlina/alco/parse/StringParser.java:36-92 | the intended decoding never gives more bytes than the text has characters |
| StringParser.ParseIntended | src/java/me/pavlina/alco/parse/StringParser.java:21-95 | under the intended reading too, a string token's bytes are never more than the characters between its quotes |
| StringParser.Parse | src/java/me/pavlina/alco/parse/StringParser.java:21-95 | the character loop returns what the as-written reading of the token gives, errors included |
| StringParser.EscapeNeverEnds | src/java/me/pavlina/alco/parse/StringParser.java:35-79 | as written, the flag set by a backslash is never cleared, so the letter after an escape is decoded as an escape too |
| StringParser.HexDigitsReread | src/java/me/pavlina/alco/parse/StringParser.java:60-74 | as written, the two hex digits after \x are read again, so "\xab" gives 0xab, 7, 8 |
| StringParser.HexStep | src/java/me/pavlina/alco/parse/StringParser.java:60-74 | as written, a hex escape puts its byte in front of what reading on from its first digit gives |
| StringParser.SingleEscapes | src/java/me/pavlina/alco/parse/StringParser.java:39-59 | each escape letter alone in a literal gives its byte |
| StringParser.PlainAsWritten | src/java/me/pavlina/alco/parse/StringParser.java:36-91 | a literal of printable characters without escapes reads as its character codes |
| StringParser.UnprintableRejected | src/java/me/pavlina/alco/parse/StringParser.java:86-89 | as written, the first unescaped character outside 0x20..0x7e makes `String.format` throw IllegalFormatConversionException, because `%02x` is given a `char` |
| StringParser.UnprintableReported | src/java/me/pavlina/alco/parse/StringParser.java:86-89 | with the message built from the character's code, the intended reading reports the first unescaped character outside 0x20..0x7e as an invalid character code |
| StringParser.HexPair | src/java/me/pavlina/alco/parse/StringParser.java:65-73 | two hex digits written for a byte read back as that byte |
| StringParser.DecodeOne | src/java/me/pavlina/alco/parse/StringParser.java:36-92 | with the escape flag reset after each escape, one escaped byte decodes to that byte in front of the rest |
| StringParser.DecodeHexEscape | src/java/me/pavlina/alco/parse/StringParser.java:60-74 | with the digits skipped, \x and two hex digits stand for exactly one byte |
| StringParser.EscapeRoundTrip | src/java/me/pavlina/alco/parse/StringParser.java:36-92 | the intended decoding undoes escaping for every byte string |
| StringParser.LiteralRoundTrip | src/java/me/pavlina/alco/parse/StringParser.java:17-95 | a quoted literal written for any bytes parses back to those bytes under the intended reading |
| Types.BaseType | src/java/me/pavlina/alco/language/Type.java:84-102 | a primitive name gives its encoding and size; any other name an object type of that name, sized OBJECT_SIZE, with arguments iff some are given |
| Types.MakeType | src/java/me/pavlina/alco/language/Type.java:43-65 | a last array modifier gives an array of OBJECT_SIZE, a last pointer modifier a pointer of bits/8 bytes |
| Types.MakeTypeLayers | src/java/me/pavlina/alco/language/Type.java:43-65 | the constructor nests exactly the given modifiers, in order, around the base type, and sizes every pointer for the target |
| Types.SizeLog2 | src/java/me/pavlina/alco/language/Type.java:187-194 | the size column is one of the table's four |
| Types.EncodedNameAsWritten | src/java/me/pavlina/alco/language/Type.java:159-201 | as written, getEncodedName succeeds iff every primitive and pointer size in the type is 1, 2, 4 or 8 bytes, there is no null type and there is no array; it then agrees with the intended encoder, and otherwise fails with "invalid size" |
| Types.EncodedName | src/java/me/pavlina/alco/language/Type.java:159-201 | the intended encoder succeeds iff every primitive and pointer size in the type is 1, 2, 4 or 8 bytes and there is no null type |
| Types.ArrayEncodingFails | src/java/me/pavlina/alco/language/Type.java:186-197 | as written, an array (size 16) hits the invalid-size error; the intended name of int[] is "qC" |
| Types.EncodersAgreeWithoutArrays | src/java/me/pavlina/alco/language/Type.java:159-201 | the written and the intended encoders agree on every type that holds no array |
| Types.DecodeAtAsWritten | src/java/me/pavlina/alco/language/Type.java:207-285 | as written, a decoded type ends after the position it started from and inside the string |
| Types.ArgsDecodedAsWritten | src/java/me/pavlina/alco/language/Type.java:262-272 | as written, the argument loop never moves the position backwards or past the end |
| Types.DecodeAsWrittenSkipsFirst | src/java/me/pavlina/alco/language/Type.java:207-296 | as written, decoding "C" (the name of int) fails while "xC" decodes to int: the first character is skipped |
| Types.FromEncodedNameAsWritten | src/java/me/pavlina/alco/language/Type.java:289-296 | as written, a one-character name never decodes, and a decoded type needs at least two characters |
| Types.FromEncodedName | src/java/me/pavlina/alco/language/Type.java:289-296 | the intended decoder gives a type only for a non-empty string that starts with a type letter |
| Types.DecodeAt | src/java/me/pavlina/alco/language/Type.java:207-285 | the intended decoder consumes at least one character and stays inside the string |
| Types.DecodeArgs | src/java/me/pavlina/alco/language/Type.java:262-272 | the intended argument loop consumes at least its 'Z' |
| Types.EqualsAsWrittenThrows | src/java/me/pavlina/alco/language/Type.java:432-439 | as written, comparing an argument-less object type to itself throws; the documented comparison holds |
| Types.EqualsAsWritten | src/java/me/pavlina/alco/language/Type.java:421-442 | wherever the written equals returns, it returns what the documented equivalence does |
| Types.Equals | src/java/me/pavlina/alco/language/Type.java:421-442 | the documented equivalence; it has no contract of its own, and Types.EqualsReflexive, EqualsSymmetric, EqualsTransitive, EqualsKeepsEncoding and EncodedNameIffEquals state its properties |
| Types.ArgsEqualPointwise | src/java/me/pavlina/alco/language/Type.java:433-439 | object arguments are equivalent iff the lists have the same length and are equivalent position by position |
| Types.EqualsReflexive | src/java/me/pavlina/alco/language/Type.java:421-442 | every well-formed type is equivalent to itself |
| Types.EqualsSymmetric | src/java/me/pavlina/alco/language/Type.java:421-442 | equivalence is symmetric |
| Types.EqualsTransitive | src/java/me/pavlina/alco/language/Type.java:421-442 | equivalence is transitive |
| Types.WellFormedEncodes | src/java/me/pavlina/alco/language/Type.java:159-201 | every well-formed type has a non-empty encoded name starting with a type letter |
| Types.EqualsSameEncoding | src/java/me/pavlina/alco/language/Type.java:159-201 | equivalent well-formed types have the same encoded name |
| Types.LetterRoundTrip | src/java/me/pavlina/alco/language/Type.java:212-231 | a primitive's one-letter name decodes to an equivalent base type |
| Types.DecodeEncoded | src/java/me/pavlina/alco/language/Type.java:207-285 | decoding the encoded name of a well-formed type, wherever it sits, consumes exactly that name and yields an equivalent type |
| Types.DecodeArgsEncoded | src/java/me/pavlina/alco/language/Type.java:258-273 | the argument loop decodes the concatenated names of a list, up to its 'Z', to an equivalent list |
| Types.FromEncodedNameRoundTrip | src/java/me/pavlina/alco/language/Type.java:155-158 | the intended fromEncodedName inverts getEncodedName up to equivalence, as the documentation promises |
| Types.EncodedNameIffEquals | src/java/me/pavlina/alco/language/Type.java:155-158 | two well-formed types are equivalent iff their encoded names are the same string |
| Types.EncodedNameReader.constructor | src/java/me/pavlina/alco/language/Type.java:289-291 | the reader starts at position 0 of the given name |
| Types.EncodedNameReader.ReadType | src/java/me/pavlina/alco/language/Type.java:207-285 | reads one type and leaves the cursor just past it, agreeing with the intended decoder |
| Types.EncodedNameReader.ReadArgs | src/java/me/pavlina/alco/language/Type.java:262-272 | the argument loop agrees with the intended one and leaves the cursor past the 'Z' |
| Types.FromEncodedNameMethod | src/java/me/pavlina/alco/language/Type.java:289-296 | the public entry point returns the intended decoding of the whole string |
| Types.Coerce | src/java/me/pavlina/alco/language/Type.java:375-409 | with the documented equality: a success is always the destination, and the call throws iff it is a non-equivalent array to a pointer of an equivalent element type |
| Types.CoerceAsWritten | src/java/me/pavlina/alco/language/Type.java:375-409 | coerce as written: wherever it returns, it returns what Types.Coerce does, and it throws whenever the written equals throws on the two types |
| Types.CoerceAsWrittenThrows | src/java/me/pavlina/alco/language/Type.java:377-379 | as written, coercing `string` to itself throws from equals; with the documented equality the result is `string` |
| Types.EqualsKeepsEncoding | src/java/me/pavlina/alco/language/Type.java:421-427 | equivalent types share their encoding, and primitives their size |
| Types.CoerceReflexive | src/java/me/pavlina/alco/language/Type.java:377-379 | every well-formed type coerces to itself |
| Types.CoerceNeverNarrows | src/java/me/pavlina/alco/language/Type.java:381-391 | an integer coerces only to an integer of the same sign that is at least as wide |
| Types.CoerceNull | src/java/me/pavlina/alco/language/Type.java:399-408 | nothing coerces to the null type, and the null type coerces exactly to integer, object, array and pointer types |
| Types.CoerceTransitive | src/java/me/pavlina/alco/language/Type.java:375-409 | two coercions in a row amount to one |
| Types.ToStringOfMakeType | src/java/me/pavlina/alco/language/Type.java:451-476 | a type built from a name and modifiers prints as the name and then the modifiers in the order given |
| Types.ToStringExample | src/java/me/pavlina/alco/language/Type.java:33-43 | the constructor's documented example prints as map<string, int>[]*[] |
| Types.ToString | src/java/me/pavlina/alco/language/Type.java:451-476 | toString; it has no contract of its own, and Types.ToStringOfMakeType and ToStringExample state what it prints |
| FunctionLike.Encodings | src/java/me/pavlina/alco/ast/FunctionLike.java:283-287 | the list's encoding succeeds iff every type in it encodes |
| FunctionLike.EncodingsErrPersists | src/java/me/pavlina/alco/ast/FunctionLike.java:283-284 | once an encoding in the list throws, the rest of the list cannot change the outcome |
| FunctionLike.EncodingsCons | src/java/me/pavlina/alco/ast/FunctionLike.java:283-284 | a list's encoding is the first type's name followed by the rest's |
| FunctionLike.EncodingsNames | src/java/me/pavlina/alco/ast/FunctionLike.java:283-284 | when every type encodes, the list's encoding is the concatenation of their names |
| FunctionLike.EncodingsWellFormed | src/java/me/pavlina/alco/ast/FunctionLike.java:283-287 | lists of well-formed types encode, and a non-empty list's encoding starts with a type letter |
| FunctionLike.EncodingsOfEquals | src/java/me/pavlina/alco/ast/FunctionLike.java:283-287 | lists of pairwise equivalent well-formed types have the same encoding |
| FunctionLike.Mangled | src/java/me/pavlina/alco/ast/FunctionLike.java:266-303 | an unmangled declaration keeps its name; any other mangles iff both its return and its argument types encode |
| FunctionLike.AppendEncodings | src/java/me/pavlina/alco/ast/FunctionLike.java:283-287 | the append loop gives the written encoding of the list, including the first "invalid size" error |
| FunctionLike.GetMangledName | src/java/me/pavlina/alco/ast/FunctionLike.java:266-303 | the string builder gives the written mangled name, including the "invalid size" error for an array type |
| FunctionLike.EncodingsAsWritten | src/java/me/pavlina/alco/ast/FunctionLike.java:283-287 | as written, a list encodes iff every type in it has valid sizes, no null type and no array; it then agrees with FunctionLike.Encodings, and otherwise fails with "invalid size" |
| FunctionLike.MangledAsWritten | src/java/me/pavlina/alco/ast/FunctionLike.java:266-303 | as written, an unmangled declaration keeps its name, and any other mangles iff both its type lists encode as written; the name then agrees with FunctionLike.Mangled |
| FunctionLike.ArrayArgumentNotMangled | src/java/me/pavlina/alco/ast/FunctionLike.java:283-287 | as written, `f(int[])` cannot be mangled ("invalid size"); the intended name is `$G1f$qC` |
| FunctionLike.Demangle | src/java/me/pavlina/alco/ast/FunctionLike.java:266-303 | only a name starting with `$O`, `$G` or `$F` reads back, and the letter decides the kind of declaration |
| FunctionLike.DecodeList | src/java/me/pavlina/alco/ast/FunctionLike.java:283-287 | reading types back stops at a '$' or the end, inside the string |
| FunctionLike.ReadCounted | src/java/me/pavlina/alco/ast/FunctionLike.java:273-281 | reading a counted name back always consumes at least one character and stays inside the string |
| FunctionLike.DecodeListEncoded | src/java/me/pavlina/alco/ast/FunctionLike.java:283-287 | the encoding of a type list, followed by '$' or the end, reads back to an equivalent list |
| FunctionLike.DecodeNames | src/java/me/pavlina/alco/ast/FunctionLike.java:283-284 | the concatenated names of well-formed types read back to an equivalent list, ending where the names end |
| FunctionLike.ReadCountedAt | src/java/me/pavlina/alco/ast/FunctionLike.java:273-281 | a length followed by the name reads back to the name and the position after it |
| FunctionLike.MangledRoundTrip | src/java/me/pavlina/alco/ast/FunctionLike.java:266-303 | a mangled name reads back to the declaration's kind, package and name and to equivalent return and argument types |
| FunctionLike.SameDeclarationSameName | src/java/me/pavlina/alco/ast/FunctionLike.java:338-348 | declarations that equals calls equivalent, of the same kind and package and with equivalent return types, mangle to the same name |
| FunctionLike.SameNameSameDeclaration | src/java/me/pavlina/alco/ast/FunctionLike.java:338-348 | two mangled declarations with the same mangled name are equivalent under equals and share head and return types |
| FunctionLike.AllEqualsSymmetric | src/java/me/pavlina/alco/ast/FunctionLike.java:345-347 | the list comparison equals applies to argument types is symmetric |
| FunctionLike.AllEqualsTransitive | src/java/me/pavlina/alco/ast/FunctionLike.java:345-347 | the list comparison equals applies to argument types is transitive |
| FunctionLike.SameDeclaration | src/java/me/pavlina/alco/ast/FunctionLike.java:336-347 | equals: the same name, the same nomangle flag and equivalent argument types; it has no contract of its own, and FunctionLike.SameDeclarationSameName and SameNameSameDeclaration relate it to mangled names |
| Resolver.RealNameInjective | src/java/me/pavlina/alco/language/Resolver.java:346-351 | two variables with the same name and prefix share a real name only if they share a count |
| Resolver.Counts.constructor | src/java/me/pavlina/alco/language/Resolver.java:34-36 | the shared counts start empty and the global counter at 0 |
| Resolver.Resolver.constructor | src/java/me/pavlina/alco/language/Resolver.java:31-37 | a brand new resolver has no declared names, no variables, no functions and fresh shared counts |
| Resolver.Resolver.Nested | src/java/me/pavlina/alco/language/Resolver.java:43-51 | a nested resolver shares the counts, copies variables, functions and handler flags, and declares nothing yet |
| Resolver.Resolver.Clear | src/java/me/pavlina/alco/language/Resolver.java:56-58 | the shared variable counts are emptied and nothing else changes |
| Resolver.Resolver.SetHandleOOM | src/java/me/pavlina/alco/language/Resolver.java:68-70 | sets the out-of-memory handler flag only |
| Resolver.Resolver.SetHandleOOB | src/java/me/pavlina/alco/language/Resolver.java:80-82 | sets the out-of-bounds handler flag only |
| Resolver.Resolver.AddVariable | src/java/me/pavlina/alco/language/Resolver.java:86-110 | a name already declared in this scope is an error and changes nothing; otherwise the variable gets the shared count of its name, which goes up by one, and its real name differs from every earlier variable of that name |
| Resolver.Resolver.AddGlobalLocal | src/java/me/pavlina/alco/language/Resolver.java:117-133 | the global counter always goes up by one; a new name becomes an '@' variable named by the counter's old value |
| Resolver.Resolver.GetVariable | src/java/me/pavlina/alco/language/Resolver.java:137-141 | the visible variable of the name, or "cannot resolve name" iff there is none |
| Resolver.Resolver.AddFunction | src/java/me/pavlina/alco/language/Resolver.java:145-181 | the first conflict with a visible function, with declarations compared as written (argument lists by identity), is reported and nothing changes; otherwise the function is appended |
| Resolver.Resolver.GetFunction | src/java/me/pavlina/alco/language/Resolver.java:185-306 | the scan over the visible functions returns the resolution as written, with the exact-match test by identity, errors included |
| Resolver.CoercesAll | src/java/me/pavlina/alco/language/Resolver.java:244-248 | true iff every argument converts to the parameter type at its position |
| Resolver.AddCheckAccepts | src/java/me/pavlina/alco/language/Resolver.java:145-181 | addFunction accepts a function iff it is compatible with every function already visible |
| Resolver.AddKeepsConsistent | src/java/me/pavlina/alco/language/Resolver.java:145-181 | a function list built by addFunction alone stays consistent |
| Resolver.NomangleAlone | src/java/me/pavlina/alco/language/Resolver.java:164-179 | in a consistent list without conflict permissions an unmangled function is the only one of its name |
| Resolver.ResolveMangled | src/java/me/pavlina/alco/language/Resolver.java:204-305 | without unmangled functions of the name, the exact matches decide if there are any, else the promotion matches; one is the answer, more are ambiguous, none is unresolved |
| Resolver.ExactMatchWins | src/java/me/pavlina/alco/language/Resolver.java:231-256 | a single exact match beats any number of promotion matches |
| Resolver.NomangleShadows | src/java/me/pavlina/alco/language/Resolver.java:209-229 | an unmangled function of the name is the answer when the argument count agrees, and the call does not resolve otherwise |
| Resolver.ResolvedIsDeclared | src/java/me/pavlina/alco/language/Resolver.java:204-305 | whatever getFunction returns is a visible function of the called name |
| Resolver.Resolve | src/java/me/pavlina/alco/language/Resolver.java:185-306 | a call fails only as unresolved or as ambiguous, with the message naming the call |
| Resolver.ScanFrom | src/java/me/pavlina/alco/language/Resolver.java:204-305 | the scan loop of getFunction; it has no contract of its own, and Resolver.ResolveMangled, ExactMatchWins and NomangleShadows state what it finds |
| Resolver.AddCheck | src/java/me/pavlina/alco/language/Resolver.java:145-181 | under the documented equality: the only errors are the duplicate declaration and the duplicate name, and a duplicate declaration is reported only when an earlier function is the same declaration |
| Resolver.SameDeclarationAsWritten | src/java/me/pavlina/alco/ast/FunctionLike.java:341-348 | FunctionLike.equals as written, argument lists compared by identity; it has no contract of its own, and Resolver.DuplicateAcceptedAsWritten shows where it differs |
| Resolver.AddCheckAsWritten | src/java/me/pavlina/alco/language/Resolver.java:145-181 | the addFunction check as written: the only errors are the duplicate declaration and the duplicate name, and a duplicate declaration needs an earlier function with identical argument objects |
| Resolver.AddCheckAsWrittenAgrees | src/java/me/pavlina/alco/language/Resolver.java:145-181 | where identity decides as the documented equality does, the written check reports exactly what Resolver.AddCheck does |
| Resolver.DuplicateAcceptedAsWritten | src/java/me/pavlina/alco/language/Resolver.java:146-153 | two mangled f(int) declarations with their own Type objects are both accepted as written, and the second is a duplicate declaration under the documented equality |
| Resolver.ScanFromAsWritten | src/java/me/pavlina/alco/language/Resolver.java:204-259 | the scan loop as written, the level-1 test by identity; it has no contract of its own, and Resolver.ResolveAsWrittenAgrees and AmbiguousAsWritten state what it finds |
| Resolver.ResolveAsWritten | src/java/me/pavlina/alco/language/Resolver.java:185-306 | getFunction as written fails only as unresolved or as ambiguous, with the message naming the call |
| Resolver.ResolveAsWrittenAgrees | src/java/me/pavlina/alco/language/Resolver.java:204-305 | where identity with the call's argument objects decides as the documented equality does, the written resolution equals Resolver.Resolve |
| Resolver.AmbiguousAsWritten | src/java/me/pavlina/alco/language/Resolver.java:231-256 | f(int) and f(i64) called with an int argument held in its own Type object is an ambiguous call as written |
| Resolver.ExactOverloadChosen | src/java/me/pavlina/alco/language/Resolver.java:231-256 | under the documented equality the same call resolves to f(int), its exact match |
| ExpressionParser.Move | src/java/me/pavlina/alco/parse/ExpressionParser.java:345-363 | moveOper fails iff the output holds fewer operands than the arity needs; otherwise the operands below stay and the operator node replaces its operands on top |
| ExpressionParser.KeptTop | src/java/me/pavlina/alco/parse/ExpressionParser.java:369-384 | the operator left on top of the stack by shuntOper does not bind as tightly as the new one |
| ExpressionParser.KeptAbove | src/java/me/pavlina/alco/parse/ExpressionParser.java:369-384 | every operator shuntOper takes off the stack binds at least as tightly as the new one |
| ExpressionParser.ShuntStack | src/java/me/pavlina/alco/parse/ExpressionParser.java:369-384 | after shuntOper the stack is the kept operators with the new one on top |
| ExpressionParser.SentinelsStay | src/java/me/pavlina/alco/parse/ExpressionParser.java:369-384 | no operator takes an opening bracket off the stack |
| ExpressionParser.PopTo | src/java/me/pavlina/alco/parse/ExpressionParser.java:229-238 | the closing loop leaves a prefix of the stack |
| ExpressionParser.ValueStep | src/java/me/pavlina/alco/parse/ExpressionParser.java:143-185 | readValue either declines, fails, or moves the stream forward within the tokens |
| ExpressionParser.OpenParenStep | src/java/me/pavlina/alco/parse/ExpressionParser.java:190-221 | readOpenParen either declines, fails, or moves the stream forward within the tokens |
| ExpressionParser.OpenSquareStep | src/java/me/pavlina/alco/parse/ExpressionParser.java:258-275 | readOpenSquare either declines, fails, or moves the stream forward within the tokens |
| ExpressionParser.CloseStep | src/java/me/pavlina/alco/parse/ExpressionParser.java:226-305 | the closing readers either decline, fail, or move the stream forward within the tokens |
| ExpressionParser.CloseParenStep | src/java/me/pavlina/alco/parse/ExpressionParser.java:226-253 | readCloseParen either declines, fails, or moves the stream forward within the tokens |
| ExpressionParser.CloseSquareStep | src/java/me/pavlina/alco/parse/ExpressionParser.java:280-305 | readCloseSquare either declines, fails, or moves the stream forward within the tokens |
| ExpressionParser.Lookup | src/java/me/pavlina/alco/parse/ExpressionParser.java:315-321 | an operator is found iff its text is in UNOPS where a unary operator may stand and in BINOPS elsewhere |
| ExpressionParser.OperatorStep | src/java/me/pavlina/alco/parse/ExpressionParser.java:310-341 | readOperator either declines, fails, or moves the stream forward within the tokens |
| ExpressionParser.Dispatch | src/java/me/pavlina/alco/parse/ExpressionParser.java:110-123 | the readers tried in order either decline, fail, or move the stream forward |
| ExpressionParser.ReadStep | src/java/me/pavlina/alco/parse/ExpressionParser.java:96-124 | readOne that reads an item moves the stream strictly forward within the tokens |
| ExpressionParser.Shunt | src/java/me/pavlina/alco/parse/ExpressionParser.java:369-384 | the new operator ends on top of a stack at most one longer, and moving operators never lengthens the output |
| ExpressionParser.EmptyAll | src/java/me/pavlina/alco/parse/ExpressionParser.java:128-138 | emptying the stack never lengthens the output, and leaves an operand when there was one |
| ExpressionParser.Run | src/java/me/pavlina/alco/parse/ExpressionParser.java:67-124 | the position reached is never behind the start nor past the tokens |
| ExpressionParser.Conclude | src/java/me/pavlina/alco/parse/ExpressionParser.java:71-91 | the stream stays where reading stopped, and an expression comes back only when emptying the stack leaves exactly that one tree |
| ExpressionParser.ParseFrom | src/java/me/pavlina/alco/parse/ExpressionParser.java:67-91 | the position reached is never behind the start nor past the tokens |
| ExpressionParser.ExpressionParser.constructor | src/java/me/pavlina/alco/parse/ExpressionParser.java:53-62 | a fresh parser has empty stacks, no nesting, and a unary operator possible |
| ExpressionParser.ExpressionParser.Seek | src/java/me/pavlina/alco/parse/ExpressionParser.java:143-185 | the stream moves to where a sub-parser stopped, over the same tokens |
| ExpressionParser.ExpressionParser.MoveOper | src/java/me/pavlina/alco/parse/ExpressionParser.java:345-363 | the output becomes what moveOper specifies, or its error is returned; the stack and flags stay |
| ExpressionParser.ExpressionParser.ShuntOper | src/java/me/pavlina/alco/parse/ExpressionParser.java:369-384 | the loop leaves the stack and output that shunting specifies, or the first move error |
| ExpressionParser.ExpressionParser.EmptyStack | src/java/me/pavlina/alco/parse/ExpressionParser.java:128-138 | the loop moves every operator to the output, or reports the first bracket left open or move error |
| ExpressionParser.ExpressionParser.PopToOpening | src/java/me/pavlina/alco/parse/ExpressionParser.java:229-238 | the loop pops up to the matching opening bracket and says whether it found one |
| ExpressionParser.ExpressionParser.ReadValue | src/java/me/pavlina/alco/parse/ExpressionParser.java:143-185 | the parser's new state is the one readValue specifies |
| ExpressionParser.ExpressionParser.ReadOpenParen | src/java/me/pavlina/alco/parse/ExpressionParser.java:190-221 | the parser's new state is the one readOpenParen specifies |
| ExpressionParser.ExpressionParser.CloseBracket | src/java/me/pavlina/alco/parse/ExpressionParser.java:239-250 | after the loop, the call or index the bracket opened goes to the output, or the mismatch is reported |
| ExpressionParser.ExpressionParser.ReadCloseParen | src/java/me/pavlina/alco/parse/ExpressionParser.java:226-253 | the parser's new state is the one readCloseParen specifies |
| ExpressionParser.ExpressionParser.ReadOpenSquare | src/java/me/pavlina/alco/parse/ExpressionParser.java:258-275 | the parser's new state is the one readOpenSquare specifies |
| ExpressionParser.ExpressionParser.ReadCloseSquare | src/java/me/pavlina/alco/parse/ExpressionParser.java:280-305 | the parser's new state is the one readCloseSquare specifies |
| ExpressionParser.ExpressionParser.ReadOperator | src/java/me/pavlina/alco/parse/ExpressionParser.java:310-341 | the parser's new state is the one readOperator specifies |
| ExpressionParser.ExpressionParser.ReadOne | src/java/me/pavlina/alco/parse/ExpressionParser.java:96-124 | stops without change at the end or an end marker, otherwise takes the state the first accepting reader specifies |
| ExpressionParser.ExpressionParser.Parse | src/java/me/pavlina/alco/parse/ExpressionParser.java:67-91 | returns the expression the specified run gives, with the stream left where it stopped, or its error |
| ExpressionParserFacts.RunStops | src/java/me/pavlina/alco/parse/ExpressionParser.java:96-107 | a successful parse stops at the end of the tokens or at an end marker, between where it started and the end |
| ExpressionParserFacts.EndMarkerOutsideOnly | src/java/me/pavlina/alco/parse/ExpressionParser.java:102-107 | readOne ends the expression exactly at the end of the tokens or at an end marker while no bracket is open; inside a bracket an end marker is read on |
| ExpressionParserFacts.EmptyInput | src/java/me/pavlina/alco/parse/ExpressionParser.java:67-91 | with no tokens there is no expression |
| ExpressionParserFacts.EndMarkerFirst | src/java/me/pavlina/alco/parse/ExpressionParser.java:102-107 | an end marker where the expression would start gives no expression and reads nothing |
| ExpressionParserFacts.NameValueStep | src/java/me/pavlina/alco/parse/ExpressionParser.java:175-179 | a plain name is read as a variable, after which a call is possible and a unary operator is not |
| ExpressionParserFacts.NameStep | src/java/me/pavlina/alco/parse/ExpressionParser.java:96-110 | readOne hands a plain name to readValue |
| ExpressionParserFacts.BinopStep | src/java/me/pavlina/alco/parse/ExpressionParser.java:310-341 | a binary operator after an operand is shunted and an operand must follow |
| ExpressionParserFacts.TwoOperators | src/java/me/pavlina/alco/parse/ExpressionParser.java:369-384 | of x op1 y op2 z, the first operator takes y when shuntOper pops it, the second otherwise |
| ExpressionParserFacts.ArithmeticGrouping | src/java/me/pavlina/alco/parse/ExpressionParser.java:375-378 | subtraction groups to the left and * binds more tightly than + |
| ExpressionParserFacts.AssignmentGrouping | src/java/me/pavlina/alco/parse/ExpressionParser.java:375-378 | assignment groups to the right and binds more loosely than + |
| ExpressionParserFacts.CallWithoutArguments | src/java/me/pavlina/alco/parse/ExpressionParser.java:200-250 | f() is a call whose arguments are the empty placeholder tuple |
| ExpressionParserFacts.IndexOfName | src/java/me/pavlina/alco/parse/ExpressionParser.java:258-305 | b[i] is one index expression of base b and index i |
| ExpressionParserFacts.StrayClosing | src/java/me/pavlina/alco/parse/ExpressionParser.java:244-245 | a ) or ] with nothing open is a mismatched parenthesis or bracket |
| ExpressionParserFacts.UnclosedRejected | src/java/me/pavlina/alco/parse/ExpressionParser.java:128-138 | the stack only empties without error when no bracket is left open on it |
| ExpressionParserFacts.PopToTopmost | src/java/me/pavlina/alco/parse/ExpressionParser.java:229-238 | the closing loop stops at the topmost opening bracket of its kind, and reports none only after emptying the stack |
| ConstantFold.TruncDiv | src/java/me/pavlina/alco/passes/ConstantFold.java:75 | BigInteger.divide: the quotient's magnitude is the magnitudes' quotient and its sign the product of the signs |
| ConstantFold.TruncDivRemainder | src/java/me/pavlina/alco/passes/ConstantFold.java:75 | the remainder left by the quotient is smaller than the divisor and has the dividend's sign |
| ConstantFold.FoldNormal | src/java/me/pavlina/alco/passes/ConstantFold.java:17-197 | a successful fold leaves nothing more to fold |
| ConstantFold.NormalFixed | src/java/me/pavlina/alco/passes/ConstantFold.java:17-197 | a tree with nothing to fold is left as it is |
| ConstantFold.FoldIdempotent | src/java/me/pavlina/alco/passes/ConstantFold.java:17-197 | folding twice is folding once |
| ConstantFold.FoldKeepsValue | src/java/me/pavlina/alco/passes/ConstantFold.java:32-197 | folding an integer expression that has a value succeeds and keeps the value, whatever the names stand for |
| ConstantFold.FoldClosed | src/java/me/pavlina/alco/passes/ConstantFold.java:32-197 | an integer expression without names folds to the literal of its value |
| ConstantFold.DivideByZeroLiterals | src/java/me/pavlina/alco/passes/ConstantFold.java:70-78 | an integer literal divided by the literal 0 is the division-by-zero error |
| ConstantFold.NonLiteralKept | src/java/me/pavlina/alco/passes/ConstantFold.java:88-90 | an operator with an operand that does not fold to a literal keeps its kind, with both operands folded |
| ConstantFold.FoldAllShape | src/java/me/pavlina/alco/passes/ConstantFold.java:22-29 | a statement keeps its number of children, each replaced by its fold, and fails with the first failing child |
| ConstantFold.Fold | src/java/me/pavlina/alco/passes/ConstantFold.java:32-57 | the only error the pass raises is the integer division by zero |
| ConstantFold.Combine | src/java/me/pavlina/alco/passes/ConstantFold.java:61-177 | it fails exactly on an integer division by the literal 0, and gives a literal exactly when both operands are integer literals or both are real literals |
| ConstantFold.Negate | src/java/me/pavlina/alco/passes/ConstantFold.java:179-197 | a literal operand gives a literal of the same kind, an integer its opposite; any other operand stays under the negation |
| ConstantFold.FoldAll | src/java/me/pavlina/alco/passes/ConstantFold.java:17-29 | a statement keeps its number of children, and the only error is the division by zero |
| ConstantFold.EqErrorUntouched | src/java/me/pavlina/alco/passes/ConstantFold.java:48-50 | a misplaced `=`, whose node has no children, is returned as it is, even when an operand would divide by zero |
| Build.FollowN | build.py:40-43 | following symbolic links ends at an entry that is not a link, or at nothing |
| Build.LastIndexOf | build.py:125-132 | the index of the last `/`, or -1 iff there is none; Build.Parent uses it for the directory that `os.mkdir` and `os.symlink` need to exist |
| Build.RStrip | build.py:160 | rstrip gives a prefix of the text that does not end with the character, and everything it removed is that character |
| Build.OutputOfStem | build.py:31-38 | a source ending in the source extension has the stem with the output extension as its output |
| Build.RebuildRule | build.py:21-43 | a missing output is always rebuilt; a present one iff the source is strictly newer, so equal times mean no rebuild |
| Build.NeedsCompile | build.py:21-43 | it fails only for a wrong extension, with the extension error, or for a source that has no time while its output exists |
| Build.CompileIfNeeded | build.py:79-88 | the compiler runs iff needs_compile answers true, the result says whether it ran, and a needs_compile error propagates |
| Build.SecondBuildIsNoOp | build.py:79-88 | once a compile has written a fresh output, a second call compiles nothing |
| Build.Findall | build.py:104-113 | the walk loop lists exactly the joined paths of the walked files whose names end with the extension, in walk order |
| Build.Recurse | build.py:90-102 | the walk loop counts the matching files for which f answers true |
| Build.MatchingHaveExtension | build.py:104-113 | every path findall lists ends with the extension |
| Build.MatchingCount | build.py:104-113 | findall lists one path per walked file whose name has the extension |
| Build.CountBounded | build.py:90-102 | recurse counts at most the matching files, and all of them when f always answers true |
| Build.MakeDirsGrows | build.py:119-126 | making the directories only adds entries |
| Build.LinkFileFrame | build.py:115-132 | link_file changes no entry but the link it makes, even when it fails |
| Build.LinkFileLinks | build.py:128-132 | on success the link names the absolute form of root/path |
| Build.ExistingLinkReplaced | build.py:128-132 | a link already at the destination is replaced by the new one |
| Build.RealFileCollision | build.py:130-132 | a real file or directory at the destination makes symlink raise FileExistsError, leaving the tree as it was |
| Build.NonDirectoryComponent | build.py:120-124 | a path component that exists and is not a directory stops link_file before anything is made |
| Build.MakeDirs | build.py:119-126 | the directory loop of link_file; it has no contract of its own, and Build.MakeDirsGrows and NonDirectoryComponent state its effect |
| Build.LinkFile | build.py:115-132 | link_file; it has no contract of its own, and Build.LinkFileFrame, LinkFileLinks, ExistingLinkReplaced and RealFileCollision state its effect |
| Build.LinkAllAppend | build.py:158-170 | linking two lists of jobs is linking the first and, if that succeeded, the second |
| Build.LinkAllFrame | build.py:158-170 | nothing is rolled back: every entry no job links over stays unchanged, even after a failure |
| Build.LinkPathInjective | build.py:128 | distinct relative paths give distinct links |
| Build.LastJobWins | build.py:158-170 | when every job succeeds, a path's link is the one made by the last job with that path |
| Build.Targets | build.py:141-142 | every jar is unpacked into its own name with ".d" appended |
| Build.UnpackedJarsSkipped | build.py:141-156 | jars that already have their directory are not unpacked again |
| Build.FreshJarUnpacked | build.py:141-155 | a jar without its directory gets a fresh empty one and is unpacked into it |
| Build.UnpackJars | build.py:141-156 | the unpacking loop; it has no contract of its own, and Build.UnpackedJarsSkipped and FreshJarUnpacked state its effect |
| Build.MergeRoots | build.py:158-170 | the merging loop; it has no contract of its own, and Build.JobsAreClasses, LinkAllAppend, LinkAllFrame and LastJobWins state its effect |
| Build.PrepJarDirectory | build.py:135-170 | prep_jar_directory; it has no contract of its own, and Build.Disk.Prepare ties the method to it |
| Build.RootDirSlash | build.py:159-160 | a root's trailing slashes collapse to one |
| Build.JobsAreClasses | build.py:163-170 | every file linked from a root is a .class file relative to that root |
| Build.Disk.constructor | build.py:135-139 | the disk starts as the given tree |
| Build.Disk.MakeDirectory | build.py:125-126 | os.mkdir on the disk has the effect the tree model gives |
| Build.Disk.RemoveLink | build.py:130-131 | os.unlink removes exactly that entry |
| Build.Disk.MakeSymlink | build.py:132 | os.symlink on the disk has the effect the tree model gives |
| Build.Disk.LinkInto | build.py:115-132 | link_file's statements leave the disk as the link_file model says |
| Build.Disk.LinkEach | build.py:163-170 | the linking loop leaves the disk as linking every job in order, stopping at the first failure |
| Build.Disk.LinkClasses | build.py:163-170 | the class files of one walk are linked as they are found |
| Build.Disk.Prepare | build.py:135-170 | prep_jar_directory leaves the disk as the model of unpacking the jars and then linking every root says |
| TestHarness.Partition | test.py:68 | str.partition: the text before the first space and after it, or the whole line and "" |
| TestHarness.KnownTag | test.py:69-88 | every tag the header loop knows, spelled out, reads back as itself |
| TestHarness.HeaderLen | test.py:64-66 | the header is never longer than the file |
| TestHarness.HeaderLenDirectives | test.py:64-67 | every header line is a directive and the line that ends the header is not |
| TestHarness.Directives | test.py:64-67 | one directive per header line |
| TestHarness.ParseHeader | test.py:53-88 | the header loop gives the spec the header model gives, errors included |
| TestHarness.ReadHeader | test.py:53-88 | the header loop, which strips each line of the full str.isspace set (non-ASCII spaces included); it has no contract of its own, and TestHarness.ParseHeader, NoHeaderDefaults, PrefixFails, HeaderStops and ApplyLast state it |
| TestHarness.PrefixFails | test.py:72-88 | once a directive raises, the rest of the header cannot change the error |
| TestHarness.HeaderStops | test.py:64-66 | nothing after the first line that is not a directive is read |
| TestHarness.NoHeaderDefaults | test.py:53-62 | a fixture without directives runs with exit codes 0, no expected output and nothing to run or delete |
| TestHarness.TagSplit | test.py:68 | a directive's tag is everything before its first space |
| TestHarness.ApplyLast | test.py:64-88 | one more directive is applied to the spec read so far |
| TestHarness.ReadNext | test.py:67-88 | a directive "TAG rest" acts by its tag on the rest |
| TestHarness.ApplyTag | test.py:67-88 | only COMPILE, with arguments json.loads rejects, and CEXIT and PEXIT, with a number int() rejects, raise; an unknown tag changes nothing |
| TestHarness.OutputLinesAppend | test.py:77-86 | COUT, CERR, POUT and PERR append their text and a newline to the expected output |
| TestHarness.TwoOutputLines | test.py:77-78 | two COUT lines expect both texts, each ended by a newline |
| TestHarness.DeleteAdds | test.py:73-74 | DELETE appends its path to the paths to delete |
| TestHarness.RunReplaced | test.py:75-76 | RUN replaces the program to run |
| TestHarness.ExitApplied | test.py:81-88 | CEXIT and PEXIT followed by a number set that expected exit code |
| TestHarness.ExitRejected | test.py:81-88 | CEXIT and PEXIT followed by text int() rejects raise; the whitespace int() ignores is the full str.isspace set |
| TestHarness.LastNameWins | test.py:69-70 | the last NAME directive names the test |
| TestHarness.ApplyKeepsName | test.py:71-88 | a directive other than NAME leaves the name alone |
| TestHarness.TagKeepsName | test.py:71-88 | every tag but NAME leaves the name alone |
| TestHarness.PyIntRoundTrip | test.py:82 | a number printed with %d reads back with int() |
| TestHarness.NoStrip | test.py:65 | text that starts and ends with a character outside str.isspace (ASCII and non-ASCII whitespace alike) is left alone by strip() |
| TestHarness.Mismatch | test.py:100-119 | no mismatch iff exit code and both outputs are as expected; an exit-code mismatch is reported first |
| TestHarness.RemoveQuietlyRemoves | test.py:104-108 | the quiet cleanup removes exactly the listed paths |
| TestHarness.RemoveStrictlyRule | test.py:150-151 | the cleanup after a pass succeeds iff the paths are distinct and all exist, and then removes exactly them |
| TestHarness.JudgeCleansUp | test.py:100-152 | a verdict of pass or fail leaves none of the DELETE paths behind |
| TestHarness.PassRule | test.py:90-152 | a fixture passes iff the compiler's exit code and output match, the program's too when RUN is given, and every DELETE path can be deleted |
| TestHarness.Judge | test.py:90-152 | run_alpha_test after the header; it has no contract of its own, and TestHarness.PassRule and JudgeCleansUp state its verdict and cleanup |
| TestHarness.RunTest | test.py:48-152 | a header that raises ends the test before anything runs, leaving the files as they were |
| TestHarness.NoRunWithoutRun | test.py:121 | without RUN only the compiler is run |
| TestHarness.BelowTotal | test.py:159 | the order sorted() uses is total |
| TestHarness.BelowTrans | test.py:159 | the order sorted() uses is transitive |
| TestHarness.InsertElements | test.py:159 | inserting a name adds exactly that name |
| TestHarness.InsertSorted | test.py:159 | inserting into a sorted list keeps it sorted |
| TestHarness.SortSorted | test.py:159 | the sort gives a sorted permutation of the listing |
| TestHarness.TestPathsExactly | test.py:159-161 | the fixtures are exactly the .al names of the listing, under ./test/ |
| TestHarness.SuiteStopsAtFirstFailure | test.py:159-161 | a fixture after one that does not pass is never run |
| TestHarness.Suite | test.py:154-161 | the suite loop; it has no contract of its own, and TestHarness.SuiteStopsAtFirstFailure and Workspace.RunSuite state it |
| TestHarness.Workspace.constructor | test.py:154-158 | the workspace starts with the given files |
| TestHarness.Workspace.Execute | test.py:93-98 | running a command changes the files as the command does |
| TestHarness.Workspace.DeleteQuietly | test.py:104-108 | the quiet cleanup loop removes the listed paths that exist |
| TestHarness.Workspace.DeleteAll | test.py:150-151 | the strict cleanup loop removes the paths, or stops at the first it cannot remove |
| TestHarness.Workspace.Compare | test.py:100-119 | a mismatch fails the test after the quiet cleanup; a match changes nothing |
| TestHarness.Workspace.RunAlphaTest | test.py:48-152 | run_alpha_test gives the verdict and files the test model gives |
| TestHarness.Workspace.RunSuite | test.py:154-161 | main runs every .al fixture in sorted order until one does not pass |

## Left out

- File contents, the clock and external commands are parameters of the model, not behaviour in it. This covers file modification times, `javac`, `cc`, `jar`, `os.walk` order, `os.path.abspath`, `subprocess` and `json.loads`. `Build` and `TestHarness` take them as oracles over the file tree.
- `build.py`'s `main`, `build_jar_file`, `do_java_compile` and `do_c_compile` are not modelled. They only assemble command lines and call the external tools, which are parameters here. `whine` and `sys.exit` appear only as the error a modelled operation returns.
- `test.py`'s `compile_helpers` is not modelled, because it only runs the C compiler. The text printed by `start`, `Pass` and `Fail` is not modelled either. Only the verdict is.
- Build.Recurse: the callback `f` is a pure function of the path, so its side effects are not modelled.
- TestHarness.Mismatch: the outputs are compared as text, as under Python 2. Under Python 3, which the second line of `test.py` names, the pipes give bytes. Bytes never equal the expected text, and `msg += got_cout` then raises TypeError, so every fixture would crash.
- TestHarness.Workspace.Execute: the command oracle is total. The OSError that `subprocess.Popen` raises for a program that does not exist is not modelled.
- TestHarness.ExitApplied: Python's `int()` also accepts underscores between digits and non-ASCII digits. The model accepts surrounding whitespace (the full str.isspace set), an optional sign and ASCII digits only.
- IntValue.DigitIn: it reads ASCII digits and letters only. `new BigInteger(number, radix)` (IntValue.java line 53) reads digits with `Character.digit`. That also accepts every Unicode decimal digit, such as the Arabic-Indic `٣` for 3, and the full-width letters U+FF21 to U+FF3A and U+FF41 to U+FF5A. The Unicode digit table is not modelled.
- IntValue.InvalidDigitRejected: it is about the ASCII digit reading of IntValue.DigitIn. A Unicode decimal digit such as `٣` is a digit to the source, so the source reads such a literal as a number where the lemma gives "invalid integer".
- StringParser.ParseHex: `Integer.parseInt(hexCode, 16)` (StringParser.java lines 68 and 73) also goes through `Character.digit`. The source reads the two characters of `\x٣٣` as the code 0x33, where the model fails with "valid hex code after \x".
- The file tree is flat: a map from path strings to files, directories and links. Permissions, hard links and `..` components are not modelled.
- ConstantFold.Fold: the fold works on values, so it does not model the pass's in-place updates to the tree, sharing between nodes or null children. `OpDiv` runs its children a second time. On values that second run is the identity (ConstantFold.FoldIdempotent), so the model runs them once. Array literals are kept as their tokens, so the items of an array literal are not folded. The pass does fold them, because `ArrayValue.getChildren` returns the items: for `{1/0}` the source raises "integer division by zero" and the model does not.
- Floating point: real literals are combined by a `RealOps` parameter that stands for Java `double` arithmetic on the literal text. No rounding behaviour is modelled.
- ExpressionParser: integer literals are read by the modelled IntValue.ParseLiteral. The other readers are parameters (`Readers`). `isDouble` only decides whether a token is a real literal; the value of a real literal is its text. `arrayValue` (ArrayValue at `{`) and `typeName` (TypeParser after `new` and `as`) may return any later position: the model only requires that they read at least one token and stay within the stream (`Advancing`). What those sub-parsers accept is not modelled.
- ExpressionParser: the position reported for a split-expression error is not modelled, only the error. This is the search for the leftmost child of the remaining operand.
- ExpressionParser: `readCloseSquare` has a live `assert false` for an opening bracket that is not an index (ExpressionParser.java line 295). The JVM skips assertions unless it is started with `-ea`, and the model follows a run without it: nothing happens there.
- ExpressionParser: `OpEqError.setOperands` discards its operands, so the misplaced `=` node has no children. The model keeps them in `BinaryOp("=", l, r)`. No pass of the model looks inside that node: ConstantFold returns it untouched.
- ExpressionParser: some operators in the parser's tables have no node class among the source files (`%`, `%%`, `^`, `&&`, `<`, `<=`, `>=`, `==`, `!=`). Each takes the constant of its group in `Precedence.java`, for example `REL_INEQ` for `<`.
- `Expression.java`'s duplicate expression reader is not part of this model. Neither are the LLVM instruction builders that `Block` and `Counter` serve.
- StringCollector.DoubledSize: sizes are unbounded integers. The doubling `size *= 2` overflows Java `int` once the size passes 2^30, and that is not modelled.
- Counter.Issue: counts are unbounded integers. The wrap-around of Java `int` after 2^31 - 1 temporaries for one prefix is not modelled.
- Counter.Counter.SetCount: a count that is not an Integer (the ClassCastException case) cannot be expressed, because the model's counts are typed.
- Resolver: `Type.canCoerce` is not part of this model. It is a `coerce` parameter of the resolver functions.
- Resolver: errors are modelled by their message. The notes a CError carries and the candidate list printed for an ambiguous call are not modelled.
- Resolver.Resolver.Clear: the documentation of `clear()` speaks of visible functions, but the code empties the shared variable counts. The model follows the code.
- FunctionLike: Java's `List.equals` over `Type` uses `Object.equals`, which is identity, because `Type` only overloads `equals(Type)`. FunctionLike's own lemmas compare argument lists with structural type equality. The resolver models both readings (see the Resolver lines below).
- Resolver: a Type object's identity is a number chosen by the caller of the model. The model does not check that one identity always holds the same type, and it does not model where the compiler shares one Type object between a declaration and a call.
- Resolver.AddCheck: it compares argument lists with the documented equality. Resolver.java lines 148 and 166 compare them by identity, so two mangled declarations of `f(int)` are both accepted as written (Resolver.DuplicateAcceptedAsWritten). Resolver.AddCheckAsWritten is the written check, and Resolver.Resolver.AddFunction follows it.
- Resolver.AddCheckAccepts: it is about Resolver.AddCheck, the documented equality. As written, a function with the same name and argument types but its own Type objects counts as compatible.
- Resolver.AddKeepsConsistent: it is about Resolver.AddCheck. A list built by the written addFunction can hold two declarations that are the same under the documented equality.
- Resolver.ScanFrom: its level-1 test is the documented equality. Resolver.java line 233 compares the argument lists by identity; Resolver.ScanFromAsWritten is that loop, and Resolver.Resolver.GetFunction follows it.
- Resolver.ResolveMangled: it describes Resolver.Resolve. As written an exact match needs the call's own Type objects, so with distinct objects the promotion matches decide, and `f(int)` beside `f(i64)` called with an `int` is ambiguous (Resolver.AmbiguousAsWritten).
- Resolver.ExactMatchWins: it holds for Resolver.Resolve. As written it holds only where identity agrees with the documented equality (Resolver.ResolveAsWrittenAgrees).
- Resolver.Resolve: it is the documented resolution. Resolver.ResolveAsWritten is the written one, and the two agree where identity decides as the documented equality does.
- Types.Coerce: it compares with the documented equality, so it returns where the written `coerce` throws a NullPointerException from `equals`, for example for `string` to `string`. Types.CoerceAsWritten is the written version and agrees with it wherever it returns.
- Types.CoerceReflexive: it holds for Types.Coerce. The written `coerce` throws on an object type without arguments coerced to itself (Types.CoerceAsWrittenThrows).
- FunctionLike.Encodings: it uses the intended encoder, under which arrays encode. The written list encoding fails with "invalid size" on any array type; that is FunctionLike.EncodingsAsWritten, which the loop FunctionLike.AppendEncodings follows.
- FunctionLike.EncodingsWellFormed: it holds for the intended encoder. As written, a list holding an array type does not encode (FunctionLike.ArrayArgumentNotMangled).
- FunctionLike.Mangled: it uses the intended encoder, so declarations with array types get names that the written getMangledName cannot build. FunctionLike.MangledAsWritten is the written version, and FunctionLike.GetMangledName follows it.
- Cast: `Encoding.BOOL` and `equalsNoConst` are not defined in `Type.java`. The cast operand is either a `Type` or the boolean type, and the constness-free equality is `Types.Equals`.
- Cast: the code generation half of `Cast.java` is not modelled, only `checkTypes`. This is the LLVM instruction chosen for each cast.
- Token: only a token's kind and text are modelled. Line, column and the error annotator are not.
- ConfigFile: opening and reading the file are not modelled. The reader works on the lines `readLine` returns.
- IndentOutput: bytes are integers, and the underlying `PrintStream` is the sequence of bytes it has received. Flushing and I/O errors are not modelled.
- Operators and Keywords: the unmodifiable views that the Java code hands out are plain immutable sequences.

## Findings

| source | as written | input that shows it | evidently intended | confidence | as-written member | corrected member |
|---|---|---|---|---|---|---|
| src/java/me/pavlina/alco/language/Type.java:186-197 | an array's size is 16, which the size table does not cover, so getEncodedName throws "invalid size" for every array | `int[]` | arrays encode as `q` followed by the element's encoding, here `qC` | high, not executed | Types.ArrayEncodingFails | Types.FromEncodedNameRoundTrip |
| src/java/me/pavlina/alco/language/Type.java:207-211 | fromEncodedName increments the position before reading, so the first character is skipped | `"C"` fails and `"xC"` decodes to `int` | `"C"` decodes to `int`, and decoding inverts encoding | high, not executed | Types.DecodeAsWrittenSkipsFirst | Types.FromEncodedNameRoundTrip |
| src/java/me/pavlina/alco/language/Type.java:432-439 | equals reads the size of the argument lists without a null check, so an object type with no arguments throws NullPointerException | `string` compared with itself | a missing argument list counts as empty, so equality is reflexive | high, not executed | Types.EqualsAsWrittenThrows | Types.EqualsReflexive |
| src/java/me/pavlina/alco/codegen/Cast.java:65 | the signed range check is chosen by `dstE == SINT \|\| dstE == SINT`, so no range check applies to unsigned targets | literal `-1` cast to `u32` is accepted | the second test is for UINT, so `-1` is outside the range of `u32` | high, not executed | Cast.UnsignedLiteralUnchecked | Cast.LiteralInRange |
| src/java/me/pavlina/alco/parse/StringParser.java:35-79 | the escape flag is never cleared, and `\x` does not skip its two hex digits | `"\nb"` gives bytes 10, 8 and `"\xab"` gives 0xab, 7, 8 | an escape covers its own characters only, so the two give 10, 'b' and 0xab | high, not executed | StringParser.EscapeNeverEnds | StringParser.LiteralRoundTrip |
| src/java/me/pavlina/alco/language/MangleReader.java:68-72 | nextInt steps back after the non-digit that ends a number, leaving the position on the number's last digit | `"3abc"`: nextInt then nextString(3) gives 3 and `"3ab"` | the position is left on the first character after the digits, giving `"abc"` | medium, not executed | MangleReader.ReadIntAsWrittenRereadsLastDigit | MangleReader.ReadIntOfDecimal |
| src/java/me/pavlina/alco/parse/StringParser.java:86-88 | the message for a character outside 0x20..0x7e is built with `String.format ("... 0x%02x", c)` where `c` is a `char`, and `%x` does not accept a `Character`, so IllegalFormatConversionException is thrown instead of the compile error | a literal holding a tab, `"a<TAB>b"` | the compile error "invalid character code 0x09" | high, not executed | StringParser.UnprintableRejected | StringParser.UnprintableReported |
| src/java/me/pavlina/alco/language/Resolver.java:233 | the exact-match test `iArgs.equals(argTypes)` is `List.equals`, which compares the Type objects by identity, because Type only overloads `equals(Type)` | `f(int)` and `f(i64)` declared, `f(x)` called with `x` an `int` | the declared `f(int)` is an exact match and is chosen | high, not executed | Resolver.AmbiguousAsWritten | Resolver.ExactOverloadChosen |
| src/java/me/pavlina/alco/ast/FunctionLike.java:341-348 | FunctionLike.equals compares the argument lists with `List.equals`, so addFunction (Resolver.java lines 148 and 166) sees two declarations with the same argument types as different | two mangled declarations of `f(int)` | the second is a "duplicate function declaration" | high, not executed | Resolver.DuplicateAcceptedAsWritten | Resolver.AddCheckAccepts |

# The Slang lexical front end, modelled in Dafny

This project models the lexical front end of the Slang compiler, together with
proofs about it. The front end turns source text into a tree of tokens:

1. **Raw lexer** (`lex`). A `Cursor` walks the characters of the source.
   `next_token` classifies one lexeme and reports its kind and its length in
   bytes. The lexemes are comments, whitespace, identifiers, number,
   character and string literals, one-character punctuation and unknown
   characters.
2. **Escape validator** (`lex::unescape`). It walks the inside of a character
   or string literal. For each character or escape it reports the byte range
   and the character denoted, or an error.
3. **String reader** (`parse::lex`). It drives the raw lexer and skips
   whitespace and unknown characters. It keeps the absolute `BytePos` of the
   cursor. It turns each raw token into a parser token with its span, symbol
   and checked literal kind, and says whether whitespace came before it.
4. **Token-tree builder** (`parse::tokentrees`). It glues adjacent
   punctuation (`<` `=` into `<=`) and records each token's spacing (`Alone`,
   `Joint` or `JointHidden`). It nests the tokens between delimiters into
   groups.
5. **Token tables** (`ast::token`). These are how compound tokens split and
   glue, and which kinds count as punctuation. `source_idx` supplies the
   byte positions and spans.

The code takes the source's own form. `Cursor`, `StringReader` and
`TokenTreesReader` are classes whose methods update their fields. Each
method is proved against a function of the state it starts from:

- Each routine of the raw lexer is proved against a function of the
  characters the cursor still holds (`NextTokenSpec`, `NumberSpec`,
  `BlockScan`, and so on).
- The reader's `next_token` is proved against `ReadSpec`, a function of the
  cursor's character index.
- The builder's methods are proved against `NextSpec`, `TreesSpec`,
  `LoopSpec` and `OpenDelimSpec`. These are functions of that index and the
  buffered token.

The properties are proved about those functions. The tables and span
arithmetic are functions.

A run of the program can stop instead of returning. The places are a
`todo!()`, an out-of-bounds slice in the escape validator, and the `unwrap`
of the line lookup in the escape diagnostics. Each is a stop outcome of the
model (`Todo` in the raw lexer, `Panicked` in the validator, `Halted` in the
reader and the builder), so no precondition excludes any input text whose
byte positions fit in a `u32`; the reader and the tree builder require
that the source's start position plus its length in bytes is below 2^32.

## Behaviour kept as written

Where the code contradicts itself, the model follows what it does:

- **`:`** lexes as `Dollar`, and nothing ever lexes as `Colon`
  (`LexToken.ColonIsDollar`, `ParseLex.ReadNeverColon`), although the raw
  token kind documents `Colon` as `:` and `Dollar` as `$`
  (compiler/lex/src/token.rs:57-60, 169).
- **`0x`** selects base `Octal`. Its digits are then checked as octal, so
  `0x1A` reads as one error literal (`LexToken.HexPrefixIsOctal`,
  `ParseLex.HexIntegerIsError`). `number` scans hexadecimal digits after
  `x` yet labels the base `Octal` (compiler/lex/src/token.rs:264-268), and
  `Base` has a `Hex` variant that nothing produces
  (compiler/lex/src/literal.rs:2-7).
- **Escape errors** are only reported. They never change the kind of a
  character or string literal (`ParseLex.CookQuoted`).
- **A mismatched close delimiter** does not make the group fail. The group
  is built with close spacing `Alone`, and the delimiter stays buffered for
  the enclosing loop (`ParseTokenTrees.MismatchedClose`).
- **Comments** are tokens in the stream (`Comment(Line)`, `Comment(Block)`).
  Comments, unlike whitespace, do not make the token before them `Alone`.
- **A backslash before a newline** in a string literal does not continue
  the line. The slice `tail[1..0]` in `skip_ascii_whitespace` panics
  (`LexUnescape.StrUnit`). For the same reason
  `MultipleSkippedLinesWarning` is never reported.
- **Unterminated literals, empty digit runs, empty exponents, unknown
  prefixes and `\u{` escapes** stop the run at the `todo!()` sites instead of
  reporting an error.

## Model

| member | source | states |
|---|---|---|
| Std.LenUtf8 | compiler/lex/src/unescape.rs:109 | `char::len_utf8` is between 1 and 4, and is 1 exactly for ASCII |
| Std.Utf8Len | compiler/lex/src/cursor.rs:51-53 | `str::len` is at least the number of characters, and is zero exactly for the empty string |
| Std.Utf8LenAppend | compiler/lex/src/cursor.rs:51-53 | the byte length of a concatenation is the sum of the byte lengths |
| Std.CharIndex | compiler/parse/src/lex.rs:110-112 | when it finds a character index for a byte index, the characters before it take exactly that many bytes |
| Std.CharIndexOfBoundary | compiler/parse/src/lex.rs:110-112 | the byte offset of every character index is a boundary, and it gives that index back |
| Std.ByteSlice | compiler/parse/src/lex.rs:110-112 | `&s[lo..hi]` succeeds only when `lo <= hi`, and gives a string of `hi - lo` bytes |
| Std.ByteSliceOfBoundaries | compiler/parse/src/lex.rs:110-112 | slicing between the byte offsets of two character indices gives the characters between them |
| Std.ToDigit | compiler/parse/src/lex.rs:137 | `char::to_digit` gives a value below the radix; up to radix 10 it succeeds exactly on `'0'` to `'0' + radix - 1`, and at 16 exactly on hex digits |
| SourceIdx.GetOrStore | compiler/source_idx/src/lib.rs:7-9 | the symbol stands for the text it was made from |
| SourceIdx.Add | compiler/source_idx/src/lib.rs:61-66 | `BytePos + BytePos` adds the offsets |
| SourceIdx.Sub | compiler/source_idx/src/lib.rs:68-73 | `BytePos - BytePos` subtracts the offsets |
| SourceIdx.AddThenSub | compiler/source_idx/src/lib.rs:61-73 | subtracting what was added gives the position back |
| SourceIdx.FromUsize | compiler/source_idx/src/lib.rs:76-78 | `val as u32` keeps the value when it fits, and is always the value modulo 2^32 |
| SourceIdx.ToUsize | compiler/source_idx/src/lib.rs:80-82 | `to_usize` gives a value below 2^32 |
| SourceIdx.ToUsizeFromUsize | compiler/source_idx/src/lib.rs:76-82 | `to_usize(from_usize(v)) == v` for every `v` below 2^32 |
| SourceIdx.FromUsizeToUsize | compiler/source_idx/src/lib.rs:76-82 | `from_usize(to_usize(p)) == p` for every position |
| SourceIdx.WithRootCtxt | compiler/source_idx/src/lib.rs:27-29 | the span runs from `lo` to `hi` in the root context |
| SourceIdx.Combine | compiler/source_idx/src/lib.rs:31-33 | the union starts at the lesser `lo`, ends at the greater `hi`, and keeps the left operand's context |
| SourceIdx.CombineCovers | compiler/source_idx/src/lib.rs:31-33 | the union of two well-formed spans is well formed and covers both |
| SourceIdx.CombineIdempotent | compiler/source_idx/src/lib.rs:31-33 | a span combined with itself is unchanged |
| SourceIdx.CombineCommutes | compiler/source_idx/src/lib.rs:31-33 | `combine` commutes exactly when the two contexts agree |
| SourceIdx.CombineAssociative | compiler/source_idx/src/lib.rs:31-33 | `combine` is associative |
| SourceIdx.FromPair | compiler/source_idx/src/lib.rs:43-45 | a group's span keeps the open and close spans apart, unchanged |
| LexCursor.Peek | compiler/lex/src/cursor.rs:36-49 | the character `k` places ahead, or `EOF_CHAR` past the end |
| LexCursor.TakeWhileLen | compiler/lex/src/cursor.rs:26-30 | `take_while` takes no more than the input holds |
| LexCursor.TakeWhileLenMaximal | compiler/lex/src/cursor.rs:26-30 | `take_while` takes only characters satisfying `f`, and stops at the end or at the first one that does not |
| LexCursor.Cursor.constructor | compiler/lex/src/cursor.rs:11-16 | a new cursor stands at the start of its input, with the byte count reset there |
| LexCursor.Cursor.TakeChar | compiler/lex/src/cursor.rs:22-24 | returns `None` exactly at the end; otherwise returns the next character and advances by one |
| LexCursor.Cursor.TakeWhile | compiler/lex/src/cursor.rs:26-30 | advances by the longest run of characters satisfying `f` |
| LexCursor.Cursor.IsEof | compiler/lex/src/cursor.rs:32-34 | true exactly when no bytes remain |
| LexCursor.Cursor.PeekFirstChar | compiler/lex/src/cursor.rs:36-38 | the next character, or `EOF_CHAR` at the end |
| LexCursor.Cursor.PeekSecondChar | compiler/lex/src/cursor.rs:39-43 | the character after the next, or `EOF_CHAR` |
| LexCursor.Cursor.PeekThirdChar | compiler/lex/src/cursor.rs:44-49 | the third character ahead, or `EOF_CHAR` |
| LexCursor.Cursor.PosInToken | compiler/lex/src/cursor.rs:51-53 | the bytes taken since the last reset, as a `u32` (modulo 2^32) |
| LexCursor.Cursor.ResetPosInToken | compiler/lex/src/cursor.rs:54-56 | the position is kept, and the count of bytes taken starts again from zero |
| LexToken.IsWhitespace | compiler/lex/src/token.rs:95-122 | definition, no contract: exactly the eleven `Pattern_White_Space` characters of the `matches!` (`\t`, `\n`, vertical tab, form feed, `\r`, space, U+0085, U+200E, U+200F, U+2028, U+2029); `LexToken.WhitespaceToken` states the token built from it |
| LexToken.IsIdStart | compiler/lex/src/token.rs:124-126 | definition, no contract: `_` or `XID_Start`, with ASCII letters written out and the other characters taken from the `UnicodeData` parameter |
| LexToken.IsIdContinue | compiler/lex/src/token.rs:128-130 | definition, no contract: `XID_Continue`, with ASCII letters, digits and `_` written out and the other characters taken from the `UnicodeData` parameter |
| LexLiteral.Radix | compiler/lex/src/literal.rs:1-7 | `base as u32` gives the discriminants 2, 8, 10 and 16, one per base |
| LexToken.LineCommentUsed | compiler/lex/src/token.rs:199-204 | a line comment takes at least its second `/` and no more than the input |
| LexToken.BlockScan | compiler/lex/src/token.rs:206-227 | the loop of `block_comment` stays within the input |
| LexToken.BlockScanOpener | compiler/lex/src/token.rs:211-214 | an opener `/*` takes two characters and adds one level of nesting |
| LexToken.BlockScanOther | compiler/lex/src/token.rs:223 | any other character takes one character at the same depth |
| LexToken.BlockScanSuffix | compiler/lex/src/token.rs:209-225 | scanning a suffix of the input is the same as scanning the input from that offset |
| LexToken.BlockCommentUsed | compiler/lex/src/token.rs:206-227 | a block comment takes at least its `*` and no more than the input |
| LexToken.DecimalDigits | compiler/lex/src/token.rs:372-387 | `take_decimal_digits` takes no more than the input |
| LexToken.HexDigits | compiler/lex/src/token.rs:388-403 | `take_hexadecimal_digits` takes no more than the input |
| LexToken.FloatExponent | compiler/lex/src/token.rs:404-410 | `take_float_exponent` takes no more than the input, and takes something when it reports digits |
| LexToken.IdentSpec | compiler/lex/src/token.rs:234-244 | a finished identifier is an `Ident` within the input; its length and the two `todo!()` conditions are stated by `LexToken.IdentToken` |
| LexToken.IntPart | compiler/lex/src/token.rs:246-283 | the integer part of a number stays within the input |
| LexToken.FractionPart | compiler/lex/src/token.rs:285-313 | the fraction or exponent of a number stays within the input; when it stops at the empty-exponent `todo!()` is stated by `LexToken.ExponentNeedsDigits` and `LexToken.FractionExponentNeedsDigits` |
| LexToken.NumberSpec | compiler/lex/src/token.rs:246-314 | `number` stays within the input |
| LexToken.CharLoop | compiler/lex/src/token.rs:335-353 | the loop of `single_queted_string` stays within the input; where it ends is stated by `LexToken.CharLoopFirstStop` |
| LexToken.SingleQuoted | compiler/lex/src/token.rs:325-354 | `single_queted_string` stays within the input |
| LexToken.DoubleQuoted | compiler/lex/src/token.rs:356-370 | `double_quoted_string` stays within the input; where it ends is stated by `LexToken.DoubleQuotedFirstUnescaped` |
| LexToken.OneChar | compiler/lex/src/token.rs:156-180 | no one-character token starts with `/`, whitespace, a digit or a quote, so the arms before it never shadow it |
| LexToken.AfterFirst | compiler/lex/src/token.rs:139-193 | after the first character, the match takes no more than the input and never reports `Eof` |
| LexToken.NextTokenSpec | compiler/lex/src/token.rs:134-197 | empty input is `Eof` of length 0; otherwise a token takes between 1 and all of the characters and is not `Eof` |
| LexToken.ScanLineComment | compiler/lex/src/token.rs:199-204 | takes `LineCommentUsed` characters and reports `LineComment` |
| LexToken.ScanBlockComment | compiler/lex/src/token.rs:206-227 | takes `BlockCommentUsed` characters and reports `BlockComment` |
| LexToken.ScanBlockStep | compiler/lex/src/token.rs:209-225 | one turn of the depth-counting loop: it either closes the scan after exactly what `BlockScan` takes, or moves forward with the rest of the scan left at the new depth |
| LexToken.ScanWhitespace | compiler/lex/src/token.rs:229-232 | takes the run of whitespace and reports `Whitespace` |
| LexToken.ScanIdentOrUnhandledPrefix | compiler/lex/src/token.rs:234-244 | takes what `IdentSpec` says and reports `Ident`, or stops at its `todo!()` |
| LexToken.TakeDecimalDigits | compiler/lex/src/token.rs:372-387 | takes `DecimalDigits` characters and reports whether a digit was among them |
| LexToken.TakeHexadecimalDigits | compiler/lex/src/token.rs:388-403 | takes `HexDigits` characters and reports whether a hex digit was among them |
| LexToken.TakeFloatExponent | compiler/lex/src/token.rs:404-410 | takes an optional sign and decimal digits, and reports whether there were digits |
| LexToken.ScanExponent | compiler/lex/src/token.rs:305-309 | takes the `e` or `E` and then `take_float_exponent` |
| LexToken.ScanSingleQuotedString | compiler/lex/src/token.rs:325-354 | takes what `SingleQuoted` says, and reports whether the closing quote was found |
| LexToken.ScanDoubleQuotedString | compiler/lex/src/token.rs:356-370 | takes what `DoubleQuoted` says, and reports whether the closing quote was found |
| LexToken.ScanNumber | compiler/lex/src/token.rs:246-314 | takes and reports what `NumberSpec` says, or stops at its `todo!()` |
| LexToken.NumberAfterIntPart | compiler/lex/src/token.rs:284-313 | once the integer part is taken, `number` goes on with the fraction on the rest |
| LexToken.ScanIntPart | compiler/lex/src/token.rs:247-283 | takes and reports the base of `IntPart`, or stops at an empty prefixed run |
| LexToken.ScanFraction | compiler/lex/src/token.rs:285-313 | takes and reports what `FractionPart` says, or stops at an empty exponent |
| LexToken.ScanChar | compiler/lex/src/token.rs:316-323 | a terminated character literal is `Literal(Char)` over what `SingleQuoted` takes; otherwise the run stops |
| LexToken.NextToken | compiler/lex/src/token.rs:134-197 | reports what `NextTokenSpec` says, with the token's length in bytes (as a `u32`), and resets the count; at the end it reports `Eof` of length 0 and changes nothing |
| LexToken.ScanAfterFirst | compiler/lex/src/token.rs:139-193 | after the first character, takes and reports what `AfterFirst` says |
| LexToken.LineCommentStopsAtNewline | compiler/lex/src/token.rs:199-204 | a line comment contains no newline, and ends at the first newline or at the end of the input |
| LexToken.BlockScanEnds | compiler/lex/src/token.rs:206-227 | a block comment ends right after a `*/` or at the end of the input |
| LexToken.BlockScanFlat | compiler/lex/src/token.rs:206-227 | without nested openers, the comment ends at the first `*/`, or takes the rest of an unterminated input |
| LexToken.NestedCloserContinues | compiler/lex/src/token.rs:215-222 | above depth one, a `*/` only lowers the depth and the scan goes on |
| LexToken.BlockScanDepth | compiler/lex/src/token.rs:206-227 | nested block comments: counting openers minus closers step by step from the starting depth, the scan ends right after the first closer that brings the count to zero, and takes the rest of the input when none does |
| LexToken.DecimalDigitsRun | compiler/lex/src/token.rs:372-387 | takes the maximal run of digits and `_`, and reports digits exactly when a digit is in the run |
| LexToken.HexDigitsRun | compiler/lex/src/token.rs:388-403 | takes the maximal run of hex digits and `_`, and reports digits exactly when a hex digit is in the run |
| LexToken.BasePrefixes | compiler/lex/src/token.rs:248-270 | `0b` gives `Binary`, and `0o` and `0x` give `Octal`; the number covers the prefix and its digit run, and the run stops at `todo!()` exactly when it has no digit |
| LexToken.PrefixedIntPart | compiler/lex/src/token.rs:250-270 | the integer part after `0b`, `0o` or `0x` is the prefix and its digit run, or the empty-int stop |
| LexToken.FractionKeepsBase | compiler/lex/src/token.rs:285-313 | a fraction or an exponent keeps the base of the integer part |
| LexToken.UnprefixedIsDecimal | compiler/lex/src/token.rs:247-283 | without a `0b`, `0o` or `0x` prefix, a number is decimal |
| LexToken.LoneZero | compiler/lex/src/token.rs:278-279 | a `0` not followed by a digit, `_`, a prefix letter, `.`, `e` or `E` is the decimal integer `0` alone |
| LexToken.FractionDisambiguation | compiler/lex/src/token.rs:285-313 | `.` before `.` or an identifier start leaves an integer (a range or a field); any other `.` or an `e`/`E` makes a float when it finishes; anything else ends an integer; the only `todo!()` is the empty exponent |
| LexToken.ExponentNeedsDigits | compiler/lex/src/token.rs:305-311 | after the integer part, `e` or `E` gives a float exactly when the exponent after it (sign, then digits) holds a digit, and then takes the whole exponent; otherwise `number` stops at the empty-exponent `todo!()` |
| LexToken.FractionExponentNeedsDigits | compiler/lex/src/token.rs:288-304 | after `.` and a digit, the fraction digits are taken; an `e` or `E` after them gives a float exactly when the exponent holds a digit, otherwise `number` stops at the empty-exponent `todo!()`; without `e`/`E` the float ends after the fraction digits |
| LexToken.OneCharLiteral | compiler/lex/src/token.rs:326-331 | a one-character literal that is not a backslash takes exactly that character and the closing quote |
| LexToken.CharLoopEnds | compiler/lex/src/token.rs:335-353 | the character loop ends right after a quote, or stops at the end of the input or before a newline that no quote follows |
| LexToken.DoubleQuotedEnds | compiler/lex/src/token.rs:356-370 | a string literal ends right after a quote, or takes the rest of the input |
| LexToken.DoubleQuotedPlain | compiler/lex/src/token.rs:356-370 | without backslashes, a string literal is terminated exactly when a quote follows, and it ends at the first one |
| LexToken.DoubleQuotedFrom | compiler/lex/src/token.rs:356-370 | from a position that is not inside an escape, the string scan ends right after the first quote no backslash escapes (`ClosingQuote`: an odd run of backslashes before it, `Escaped`), or takes the rest of the input when there is none; only `\\` and `\"` are escapes |
| LexToken.DoubleQuotedFirstUnescaped | compiler/lex/src/token.rs:356-370 | a string literal is terminated exactly when the text holds a quote that no backslash escapes; it then ends right after the first such quote, and otherwise takes the whole input |
| LexToken.CharLoopFrom | compiler/lex/src/token.rs:335-353 | from a position no backslash escapes, the character loop runs to the first stop (`CharStop`: an unescaped `'`, or an unescaped newline not followed by `'`), a backslash taking the character after it (`RunsToStop`) |
| LexToken.CharLoopFirstStop | compiler/lex/src/token.rs:335-353 | the character loop ends right after the first stop when it is a quote, stops right before it when it is a newline, and takes the whole input when there is no stop; no stop lies before where it ends |
| LexToken.WhitespaceToken | compiler/lex/src/token.rs:145 | a whitespace token is the maximal run of whitespace at the cursor |
| LexToken.IdentToken | compiler/lex/src/token.rs:234-244 | an identifier token is its start and the maximal run of `is_id_countinue` characters after it; the character after the run is `#`, `"` or `'` exactly for the unknown-prefix `todo!()`, a non-ASCII emoji exactly for the invalid-identifier `todo!()`, and anything else gives `Ident` |
| LexToken.ColonIsDollar | compiler/lex/src/token.rs:169 | `:` is one `Dollar` token, and no input lexes as `Colon` |
| LexToken.HexPrefixIsOctal | compiler/lex/src/token.rs:264-270 | `0x1A` is one `Octal` integer of four characters |
| LexToken.BasedLiteralPrefix | compiler/lex/src/token.rs:248-270 | a `Binary` or `Octal` number starts with `0` and a prefix letter |
| LexToken.NumberKinds | compiler/lex/src/token.rs:246-314 | a number is an integer or a float |
| LexToken.CharLiteralEnds | compiler/lex/src/token.rs:182 | a character literal opens and closes with `'` and has at least its two quotes |
| LexToken.StrLiteralEnds | compiler/lex/src/token.rs:184-191 | a string literal opens and closes with `"` and has at least its two quotes |
| LexUnescape.BytesBefore | compiler/lex/src/unescape.rs:109 | the byte offset of a character index is at least that index |
| LexUnescape.SimpleEscape | compiler/lex/src/unescape.rs:62-69 | definition, no contract: the seven one-letter escapes `"`, `n`, `r`, `t`, `\\`, `'` and `0` and the characters they denote; `LexUnescape.SimpleEscapes` states what `scan_escape` makes of them |
| LexUnescape.StrSpec | compiler/lex/src/unescape.rs:101-125 | definition, no contract: the callbacks of `unescape_str` unit by unit from a character index, and whether a unit panicked; `LexUnescape.UnescapeStr`, `StrRangesTile`, `StrModePlain` and `StrModeNoPanic` state its properties |
| LexUnescape.CharSpec | compiler/lex/src/unescape.rs:24-37 | definition, no contract: `Char` mode makes the one callback of `unescape_char` over the bytes it read, or panics; `LexUnescape.CharModeOneCallback` and `CharModeResults` state its properties |
| LexUnescape.BytesBeforeSplit | compiler/lex/src/unescape.rs:109 | the bytes before an index and the bytes from it add up to the whole string |
| LexUnescape.AsciiCheck | compiler/lex/src/unescape.rs:53-59 | the character passes unchanged; it fails with `NonAsciiCharInByte` exactly when it is not ASCII and Unicode is not allowed |
| LexUnescape.ByteChar | compiler/lex/src/unescape.rs:77-79 | `\x` denotes the character of code `16 * hi + lo` |
| LexUnescape.ScanUnicode | compiler/lex/src/unescape.rs:90-99 | `scan_unicode` reads within the input |
| LexUnescape.ScanEscape | compiler/lex/src/unescape.rs:61-88 | `scan_escape` reads within the input |
| LexUnescape.UnescapeChar | compiler/lex/src/unescape.rs:39-51 | `unescape_char` reads within the input |
| LexUnescape.StrUnit | compiler/lex/src/unescape.rs:108-121 | each unit of `unescape_str` reads at least one character and stays within the input |
| LexUnescape.ByteOffset | compiler/lex/src/unescape.rs:109 | the offset computed as `s.len() - chars.as_str().len()` is the bytes before the index |
| LexUnescape.StrStep | compiler/lex/src/unescape.rs:108-124 | one unit adds one callback over its bytes to the calls made |
| LexUnescape.StrStepPanics | compiler/lex/src/unescape.rs:111-115 | a unit that panics ends the walk with the calls made so far |
| LexUnescape.UnescapeStr | compiler/lex/src/unescape.rs:101-125 | the loop makes the callbacks `StrSpec` lists, with ranges from the bytes still unread |
| LexUnescape.UnescapeUnicode | compiler/lex/src/unescape.rs:24-37 | `Char` mode makes one callback from offset 0; `Str` mode makes those of `unescape_str` |
| LexUnescape.CharModeOneCallback | compiler/lex/src/unescape.rs:29-34 | `Char` mode panics exactly on a leading `\u{`; otherwise it makes exactly one callback, from 0 and within the contents |
| LexUnescape.CharModeResults | compiler/lex/src/unescape.rs:39-51 | empty is `ZeroChars`; newline, tab and `'` are escape-only; `\r` is raw; one other character is itself; two or more starting with any other character but a backslash are `MoreThanOneChar` over two characters |
| LexUnescape.EscapeCharResults | compiler/lex/src/unescape.rs:39-51 | a literal starting with a backslash gives the escape's failure or panic; a valid escape that is the whole literal gives its character; a valid escape followed by anything is `MoreThanOneChar`, reading one character past the escape |
| LexUnescape.SimpleEscapes | compiler/lex/src/unescape.rs:61-88 | a lone backslash is `LonlyBackSlash`; the seven one-letter escapes denote their characters; any other letter but `x` and `u` is `InvalidEscape` |
| LexUnescape.HexEscape | compiler/lex/src/unescape.rs:70-80 | `\x` with a missing digit is too short and with a non-hex digit invalid; two hex digits denote the byte `16 * hi + lo` |
| LexUnescape.UnicodeEscapeNeedsBrace | compiler/lex/src/unescape.rs:90-99 | `\u` without `{` is `NoBraceInUnicodeEscape`; with `{` the run stops at `todo!()` |
| LexUnescape.StrRangesTile | compiler/lex/src/unescape.rs:101-125 | in `Str` mode the ranges are non-empty and each starts where the last ended; without a panic they cover the contents to the last byte |
| LexUnescape.BytesBeforeMonotone | compiler/lex/src/unescape.rs:109 | byte offsets grow strictly with character indices |
| LexUnescape.StrModePlain | compiler/lex/src/unescape.rs:118-120 | without backslashes, each character is reported on its own bytes: `"` is escape-only, `\r` is raw, and any other character is itself |
| LexUnescape.StrModeNoPanic | compiler/lex/src/unescape.rs:111-116 | `Str` mode panics only on a backslash-newline or a `\u{` |
| AstToken.MkLit | compiler/ast/src/token.rs:88-90 | `TokenKind::lit` is a literal of that kind and symbol |
| AstToken.IsPunct | compiler/ast/src/token.rs:172-181 | definition, no contract: the two arms of `is_punct`; `AstToken.PunctClassification` states which kinds fail it |
| AstToken.Dummy | compiler/ast/src/token.rs:128-130 | the dummy token is a `?` with the dummy span, and is punctuation |
| AstToken.Glue | compiler/ast/src/token.rs:132-170 | two tokens glue exactly when their kinds are in the table; the glued token spans the union of both spans, in the first one's context |
| AstToken.SplitThenGlue | compiler/ast/src/token.rs:92-170 | splitting a compound token and gluing the halves gives it back |
| AstToken.GlueThenSplit | compiler/ast/src/token.rs:92-170 | gluing a pair and splitting the result gives the pair back, except exactly for `<<`, `<<=`, `>>`, `>>=`, `...` from `..` `.`, and `..=` |
| AstToken.GluePunct | compiler/ast/src/token.rs:132-181 | only punctuation glues, and it glues into punctuation |
| AstToken.BinOpGluesWithEq | compiler/ast/src/token.rs:92-170 | every binary operator and `=` glue into its compound assignment, which splits back into them |
| AstToken.SplitOnlyCompound | compiler/ast/src/token.rs:92-120 | exactly the twelve compound kinds and the compound assignments split; `..=`, `<<` and `>>` do not |
| AstToken.PunctClassification | compiler/ast/src/token.rs:172-181 | `is_punct` fails exactly for delimiters, literals, comments, identifiers and `Eof` |
| AstToken.GlueTable | compiler/ast/src/token.rs:134-167 | a pair glues exactly when it is one of the entries of the table |
| ParseLex.At | compiler/parse/src/lex.rs:41-43 | the position of a character index is the start position plus the bytes before it |
| ParseLex.AtDistance | compiler/parse/src/lex.rs:41-43 | two positions differ by the bytes of the characters between them, at least one per character |
| ParseLex.SrcIndex | compiler/parse/src/lex.rs:103-105 | `src_index` is the offset from the start position |
| ParseLex.StrFromTo | compiler/parse/src/lex.rs:110-112 | `str_from_to` gives `end - start` bytes when it does not panic |
| ParseLex.StrFromToChars | compiler/parse/src/lex.rs:110-112 | between the positions of two character indices, `str_from_to` is the characters between them |
| ParseLex.IdentKind | compiler/parse/src/lex.rs:189-202 | `ident` gives an `Ident` token kind |
| ParseLex.MapKind | compiler/parse/src/lex.rs:45-90 | definition, no contract: the one-to-one arms of the match from a raw kind to a parser kind; `ParseLex.MapKindRoundTrip`, `MapKindInjective` and `MapKindDelimiters` state its properties |
| ParseLex.BasedDigits | compiler/parse/src/lex.rs:132-141 | definition, no contract: every character of the text is `_` or a digit of the radix; `ParseLex.CheckDigits` states that the loop decides it |
| ParseLex.UnicodeSpec | compiler/parse/src/lex.rs:160-187 | definition, no contract: `lexer_unicode` over the content between the prefix and the postfix; `ParseLex.CookQuoted` and `EmitQuoted` state its properties |
| ParseLex.LiteralSpec | compiler/parse/src/lex.rs:118-154 | definition, no contract: `lexer_literal` by literal kind; `ParseLex.EmitBasedInt`, `EmitPlainNumber` and `EmitQuoted` state its results |
| ParseLex.Cook | compiler/parse/src/lex.rs:45-96 | the parser kind is `Eof` exactly when the raw kind is `Eof` |
| ParseLex.RawAt | compiler/parse/src/lex.rs:41 | a raw token stays within the source and is non-empty unless it is `Eof`, which comes only at the end; a `Binary` or `Octal` number has its two prefix characters |
| ParseLex.RawAtNextToken | compiler/parse/src/lex.rs:41 | the raw token is the lexer's `next_token` on the rest of the source |
| ParseLex.SkipSpec | compiler/parse/src/lex.rs:39-96 | the loop stops, within the source, on a raw token that is neither whitespace nor unknown; it is non-empty unless it is `Eof` at the end |
| ParseLex.ReadSpec | compiler/parse/src/lex.rs:37-100 | the token's span is in the root context and ends at the cursor's new position; `Eof` comes only at the end with an empty span; any other token moves the cursor forward |
| ParseLex.Emit | compiler/parse/src/lex.rs:52-98 | the token's span runs from the position of its first character to the position after its last, in the root context; it is `Eof` exactly for a raw `Eof`, and keeps the whitespace flag |
| ParseLex.SkipsWhitespace | compiler/parse/src/lex.rs:48-51 | a whitespace raw token is skipped and sets the flag |
| ParseLex.SkipsUnknown | compiler/parse/src/lex.rs:91-94 | an unknown raw token is skipped and leaves the flag alone |
| ParseLex.SkipStops | compiler/parse/src/lex.rs:45-96 | any other raw token stops the loop there |
| ParseLex.EmitCooked | compiler/parse/src/lex.rs:45-98 | the token is the cooked kind with the span from `start` to `end`, or the run stops where cooking stops |
| ParseLex.SkipStopsOnRawToken | compiler/parse/src/lex.rs:39-96 | the loop stops on the raw token found at its stopping index, and over exactly its characters |
| ParseLex.SkipHaltsUnfinished | compiler/parse/src/lex.rs:39-96 | the loop stops early only at a `todo!()` of the raw lexer |
| ParseLex.SkipSpacedFlag | compiler/parse/src/lex.rs:38-51 | the flag is set exactly when whitespace was seen or the first raw token that is not unknown is whitespace |
| ParseLex.ReadSpaced | compiler/parse/src/lex.rs:37-100 | `next_token` reports preceding whitespace exactly when the first raw token that is not unknown is whitespace |
| ParseLex.ReadAtEnd | compiler/parse/src/lex.rs:95 | at the end of the source the reader gives `Eof` with an empty span there, not preceded by whitespace |
| ParseLex.AtAscii | compiler/parse/src/lex.rs:41-43 | an ASCII character moves the position by one byte |
| ParseLex.RawQuotes | compiler/parse/src/lex.rs:125-126 | a character or string literal opens and closes with its quote |
| ParseLex.RawBasedPrefix | compiler/parse/src/lex.rs:127-131 | a `Binary` or `Octal` number starts with `0` and an ASCII prefix letter |
| ParseLex.RawNeverColon | compiler/parse/src/lex.rs:77 | the raw lexer never produces `Colon` |
| ParseLex.AsciiEnds | compiler/parse/src/lex.rs:169-171 | inside ASCII ends, the content starts one byte after the span's start and ends one byte before its end |
| ParseLex.QuotedContent | compiler/parse/src/lex.rs:169-171 | between ASCII ends, the content slice is the text between the two quotes |
| ParseLex.AtFindsChar | compiler/parse/src/lex.rs:212-213 | in a source that starts at position 0, a token's position is a character boundary |
| ParseLex.CookQuoted | compiler/parse/src/lex.rs:160-187 | a quoted literal never slices off a boundary, keeps its kind whatever its escapes, and has its content as symbol; the line lookup fails only when `start` is not a character boundary |
| ParseLex.EmitQuoted | compiler/parse/src/lex.rs:160-187 | a quoted literal never slices off a boundary, never fails the line lookup in a source that starts at 0, and is its kind with the text between its quotes |
| ParseLex.EmitBasedInt | compiler/parse/src/lex.rs:127-144 | a binary or octal integer is `Err` exactly when a character after its prefix is neither `_` nor a digit of its base, and its symbol is its whole text |
| ParseLex.EmitPlainNumber | compiler/parse/src/lex.rs:127-152 | a decimal or hex integer is `Int`, a float is `Err` exactly when it is not decimal, and both keep their whole text |
| ParseLex.EmitNonLiteral | compiler/parse/src/lex.rs:45-98 | identifiers, punctuation, comments and `Eof` are emitted without stopping |
| ParseLex.EmitOnBoundaries | compiler/parse/src/lex.rs:110-112 | a token the raw lexer stops on never slices off a boundary; in a source that starts at 0 it never fails the line lookup |
| ParseLex.ReadOnBoundaries | compiler/parse/src/lex.rs:37-112 | `next_token` never slices off a boundary; in a source that starts at 0 it never fails the line lookup |
| ParseLex.ReadNeverColon | compiler/parse/src/lex.rs:77-78 | the reader never produces `Colon` |
| ParseLex.ReadNeverInvisible | compiler/parse/src/lex.rs:61-72 | the reader never produces an `Invisible` delimiter |
| ParseLex.HexIntegerIsError | compiler/parse/src/lex.rs:127-144 | the source `0x1A` reads as one `Err` literal over its four bytes, with its text as symbol |
| ParseLex.ReadOneChar | compiler/parse/src/lex.rs:37-100 | at a character that is a one-character token (compiler/lex/src/token.rs:156-180), `next_token` gives that token mapped to its parser kind, over that one character, with no whitespace before it |
| ParseLex.Unmap | compiler/parse/src/lex.rs:58-90 | a raw kind found back from a parser kind is one that the one-to-one arms of the mapping handle |
| ParseLex.MapKindRoundTrip | compiler/parse/src/lex.rs:58-90 | mapping a raw kind and finding it back gives the same raw kind |
| ParseLex.MapKindInjective | compiler/parse/src/lex.rs:58-90 | distinct raw kinds map to distinct parser kinds |
| ParseLex.MapKindDelimiters | compiler/parse/src/lex.rs:61-72 | each bracket maps to the delimiter of its shape, opening or closing as it is, and never to `Invisible` |
| ParseLex.CheckDigits | compiler/parse/src/lex.rs:132-141 | the digit loop gives `Err` exactly when some character is neither `_` nor a digit of the base |
| ParseLex.StringReader.constructor | compiler/parse/src/lex.rs:23-30 | the reader's cursor stands at the start of the source, and its position is the start position |
| ParseLex.StringReader.NextToken | compiler/parse/src/lex.rs:37-100 | returns what `ReadSpec` says and leaves the cursor after the token, or stops where it does |
| ParseLex.StringReader.TakeRawToken | compiler/parse/src/lex.rs:41-43 | takes the raw token at the cursor and moves `pos` over its bytes |
| ParseLex.StringReader.AdvanceToken | compiler/parse/src/lex.rs:41 | the raw token at the cursor, whose length is the bytes of its characters |
| ParseLex.StringReader.CookToken | compiler/parse/src/lex.rs:45-96 | the match from a raw kind to a parser kind computes `Cook` |
| ParseLex.StringReader.LexerLiteral | compiler/parse/src/lex.rs:118-154 | `lexer_literal`, with its digit loop, computes `LiteralSpec` |
| ParseLex.StringReader.LexerUnicode | compiler/parse/src/lex.rs:160-187 | `lexer_unicode` computes `UnicodeSpec` |
| ParseTokenTrees.SpacingOf | compiler/parse/src/tokentrees.rs:66-73 | `Joint` exactly before punctuation, `Alone` exactly before `Eof` |
| ParseTokenTrees.NextSpec | compiler/parse/src/tokentrees.rs:52-79 | `next_token` never moves the cursor back, and leaves a well-formed state whose remaining work is bounded by the characters left |
| ParseTokenTrees.TreesSpec | compiler/parse/src/tokentrees.rs:24-50 | `parse_token_trees` stops on a close delimiter or `Eof`; it succeeds only on a close delimiter inside a group or on `Eof` at the top level, and inside a group it succeeds exactly when it stops on a close delimiter. How a failure is passed on is stated by `OpenFailureFailsLoop`, and when the top level fails by `AllBalance` |
| ParseTokenTrees.LoopSpec | compiler/parse/src/tokentrees.rs:28-49 | the loop keeps the opening spacing and stops as `TreesSpec` says; a group that fails fails the loop (`OpenFailureFailsLoop`), and the loop fails exactly on unbalanced delimiters (`LoopBalance`) |
| ParseTokenTrees.OpenDelimSpec | compiler/parse/src/tokentrees.rs:81-107 | a group built on delimiter `d` is a `TokenGroup` of `d` whose open span is the delimiter's; a failed group leaves `Eof` buffered |
| ParseTokenTrees.AllSpec | compiler/parse/src/tokentrees.rs:15-22 | a successful top level has read the whole source and stands on `Eof` |
| ParseTokenTrees.SourceInput | compiler/parse/src/lex.rs:23-30 | the reader reads the given source from the given start position |
| ParseTokenTrees.SourceInputLexes | compiler/parse/src/lex.rs:23-30 | that reader drives the raw lexer of the `lex` crate |
| ParseTokenTrees.SourceSpec | compiler/parse/src/lex.rs:17-34 | definition, no contract: `parse_token_trees` of a whole source, the stream when the top level ends well and `None` otherwise; `ParseTokenTrees.SourceHalts`, `UnclosedGroupFails` and `StrayCloseFails` state its properties |
| ParseTokenTrees.NextWithoutGlue | compiler/parse/src/tokentrees.rs:52-79 | without glueing, the buffered token is returned unchanged and the next token is buffered; the spacing is `Alone` after whitespace and otherwise set by the next token |
| ParseTokenTrees.NextSpacing | compiler/parse/src/tokentrees.rs:66-74 | `Joint` is followed by punctuation, `JointHidden` by a token that is neither punctuation nor `Eof`, `Eof` always leaves `Alone`, and with glueing a token not `Alone` does not glue to the next |
| ParseTokenTrees.NextGlued | compiler/parse/src/tokentrees.rs:58-65 | `next_token` returns the buffered token itself, or punctuation glued onto it whose span covers it |
| ParseTokenTrees.NextVisible | compiler/parse/src/tokentrees.rs:52-79 | the buffered token is never an `Invisible` delimiter |
| ParseTokenTrees.LoopStops | compiler/parse/src/tokentrees.rs:36-43 | on a close delimiter or `Eof` the loop returns its trees, and succeeds exactly for a close delimiter in a group or `Eof` at the top level |
| ParseTokenTrees.MatchedClose | compiler/parse/src/tokentrees.rs:89-93 | a group closed by its own delimiter consumes it without glueing; its close spacing is that delimiter's, and its span pairs the two delimiters' spans |
| ParseTokenTrees.MismatchedClose | compiler/parse/src/tokentrees.rs:95-98 | a group ended by another close delimiter is still built, with close spacing `Alone`, and that delimiter stays buffered |
| ParseTokenTrees.TreesShaped | compiler/parse/src/tokentrees.rs:24-50 | at every depth, single tokens are neither delimiters nor `Eof`, and no group is `Invisible` |
| ParseTokenTrees.LoopShaped | compiler/parse/src/tokentrees.rs:28-49 | the loop adds only shaped trees, and leaves a visible token buffered |
| ParseTokenTrees.OpenShaped | compiler/parse/src/tokentrees.rs:81-107 | a group built on a visible delimiter is shaped |
| ParseTokenTrees.NextHalts | compiler/parse/src/tokentrees.rs:52-79 | `next_token` stops only where the reader stops: never on a slice off a boundary, and never on the line lookup in a source that starts at 0 |
| ParseTokenTrees.TreesHalts | compiler/parse/src/tokentrees.rs:24-50 | `parse_token_trees` stops only where the reader stops |
| ParseTokenTrees.LoopHalts | compiler/parse/src/tokentrees.rs:28-49 | the loop stops only where the reader stops |
| ParseTokenTrees.OpenHalts | compiler/parse/src/tokentrees.rs:81-107 | `parse_tt_open_delim` stops only where the reader stops |
| ParseTokenTrees.SourceHalts | compiler/parse/src/lex.rs:17-34 | building the trees of a whole source stops only at a `todo!()`, at an escape panic, or at the line lookup of a source that does not start at 0 |
| ParseTokenTrees.AllShaped | compiler/parse/src/tokentrees.rs:15-22 | every top-level stream is shaped |
| ParseTokenTrees.EmptySource | compiler/parse/src/tokentrees.rs:15-22 | an empty source is the empty stream, ended well on `Eof` at the start position |
| ParseTokenTrees.OpenFailureFailsLoop | compiler/parse/src/tokentrees.rs:31-33 | a group left open fails the loop around it at any depth: the loop returns the trees it had, with result `None`, on the `Eof` where the group stopped |
| ParseTokenTrees.CloseTo | compiler/parse/src/tokentrees.rs:89-98 | the groups still open once a close delimiter of kind `d` is met: a proper prefix of the open groups, everything up to the innermost group of kind `d` closed |
| ParseTokenTrees.NextBalance | compiler/parse/src/tokentrees.rs:52-79 | `next_token` from a token that is not a delimiter or `Eof` leaves the delimiter balance of the rest unchanged, glueing included (glueing joins only punctuation) |
| ParseTokenTrees.LoopBalance | compiler/parse/src/tokentrees.rs:28-49 | with the groups `open` around it, the loop fails only on unbalanced tokens; a top-level success means the tokens are balanced; a success inside a group leaves the balance where the close delimiter stands |
| ParseTokenTrees.OpenBalance | compiler/parse/src/tokentrees.rs:81-107 | `parse_tt_open_delim` returns `None` only on unbalanced tokens, and a group it builds leaves the balance where it stops |
| ParseTokenTrees.CloseMatchedBalance | compiler/parse/src/tokentrees.rs:91-93 | a close delimiter matching the innermost open group closes just that group, and the balance continues from the token buffered after it |
| ParseTokenTrees.CloseMismatchedBalance | compiler/parse/src/tokentrees.rs:95-98 | a close delimiter of another kind than the innermost group is balanced as if that group were not open, which is why the group is built and the delimiter left for the loop around it |
| ParseTokenTrees.AllBalance | compiler/parse/src/tokentrees.rs:15-22 | the top level of a run that reaches `Eof` ends well exactly when the tokens are balanced (`Balance`): it fails exactly when a close delimiter has no open group of its kind or a group is left open |
| ParseTokenTrees.NextOnOneChar | compiler/parse/src/tokentrees.rs:52-79 | without glueing, on a one-character token with no whitespace before it, `next_token` buffers that token one character further on |
| ParseTokenTrees.NextOnEnd | compiler/parse/src/tokentrees.rs:52-79 | without glueing at the end of the source, `next_token` buffers `Eof` with an empty span there, and the token it returns is `Alone` |
| ParseTokenTrees.TokenTreesReader.constructor | compiler/parse/src/tokentrees.rs:16-19 | the builder starts with the dummy token buffered |
| ParseTokenTrees.TokenTreesReader.NextToken | compiler/parse/src/tokentrees.rs:52-79 | returns the token and spacing `NextSpec` says and moves to its state, or stops where the reader does |
| ParseTokenTrees.TokenTreesReader.ParseTokenTrees | compiler/parse/src/tokentrees.rs:24-50 | returns the spacing, stream and result that `TreesSpec` says and moves to its state |
| ParseTokenTrees.TokenTreesReader.ParseTtOpenDelim | compiler/parse/src/tokentrees.rs:81-107 | returns the group that `OpenDelimSpec` says and moves to its state |
| ParseTokenTrees.TokenTreesReader.ParseAllTokenTrees | compiler/parse/src/tokentrees.rs:15-22 | returns the stream and result that `AllSpec` says |
| ParseTokenTrees.ParseSource | compiler/parse/src/lex.rs:17-34 | `parse_token_trees` gives the stream when the top level ends well and `None` otherwise |
| ParseTokenTrees.UnclosedGroupFails | compiler/parse/src/lex.rs:17-34 | the source `(` gives no stream: the group is left open at `Eof` |
| ParseTokenTrees.StrayCloseGroup | compiler/parse/src/tokentrees.rs:95-98 | in the source `(}`, the parenthesis group ends on the brace and is built, with the brace left buffered |
| ParseTokenTrees.StrayCloseFails | compiler/parse/src/lex.rs:17-34 | the source `(}` gives no stream: the brace closes the parenthesis group but is then stray at the top level |

## Left out

- `strip_shebang` is not part of this model, because its definition is not among the files modelled. `ParseTokenTrees.ParseSource` starts the reader at the first byte of the source.
- Unicode tables: `XID_Start`, `XID_Continue`, `is_emoji_char` and the NFC quick check and normalisation belong to foreign crates. They are a parameter of type `UnicodeData`, with the ASCII cases written out. Nothing is assumed about their values for other characters.
- SourceIdx.GetOrStore: the Rust code's `Symbol` is a unit struct, so all symbols are equal there. The model keeps the text each symbol is made from (every caller passes the token's text, compiler/parse/src/lex.rs:156-157, 184, 193-196), so that a literal's symbol can be stated as its text.
- SourceIdx.Add: `u32` overflow is excluded by the precondition, which every caller meets because a source and its start position fit in a `u32`.
- SourceIdx.Sub: `u32` underflow is excluded by the precondition.
- ParseLex.StringReader.constructor: requires that the start position plus the source's length fits in a `u32`, so no position in the reader wraps around.
- The `todo!()` sites, the slice panic of `skip_ascii_whitespace` and the failing `unwrap` of the line lookup stop the run (`Todo`, `Panicked`, `Halted`). The panic message is not modelled.
- `unreachable!()` in `parse_tt_open_delim` is not modelled: a group whose trees ended well always stands on a close delimiter.
- Diagnostics: the `eprintln!` messages and the line and column that `get_line_of_char` computes are not modelled. Only its failure is modelled, when `start` is not a character boundary of the source.
- `Rc` sharing of a `TokenStream`'s trees: a stream is its sequence of trees.
- `Cursor::as_str` is the ghost function `Cursor.Chars`: the characters the iterator still holds.
- `skip_ascii_whitespace` beyond its panic is not modelled. Every call reaches the panic, so its warning path is unreachable.
- `NonAsciiCharInByte` and `MultipleSkippedLinesWarning` are declared but never produced: `ascii_check` is always called with Unicode allowed.
- The unused `_src_data` of `lexer_literal` and the unused `src_data` of `ident` are not modelled.
- Private constructors (`SrcData::new`, `Token::new` of both crates, `GroupSpacing::new`, `TokenStream::new`) are datatype constructors.
- `TokenKind::split_double_token` and the kind table of `Token::glue` are the functions `AstToken.SplitDoubleToken` and `AstToken.GlueKind`. They are specified through the lemmas on them.
- BlockScan: its own contract only bounds the scan by the input; where a nested comment ends is stated by `LexToken.BlockScanDepth`.
- BlockScanEnds: says only that the scan ends after some `*/` or at the end; which `*/` it is, the one that brings the depth to zero, is stated by `LexToken.BlockScanDepth`.
- CharLoop: its own contract only bounds the scan by the input; where the character loop ends is stated by `LexToken.CharLoopFirstStop`.
- CharLoopEnds: says only what character the loop ends at or stops before; that it is the first stop no backslash escapes is stated by `LexToken.CharLoopFirstStop`.
- DoubleQuotedEnds: says only that a terminated string literal ends after some quote; that it is the first quote no backslash escapes is stated by `LexToken.DoubleQuotedFirstUnescaped`.
- UnescapeChar: its own contract only bounds what it reads; its results are stated by `LexUnescape.CharModeResults` for a literal that starts with a plain character and by `LexUnescape.EscapeCharResults` for one that starts with a backslash.
- TreesSpec: its own contract leaves the result open at a top-level `Eof`; that the top level fails exactly on unbalanced delimiters is stated by `ParseTokenTrees.AllBalance`.
- LoopSpec: its own contract does not say that a failed group fails the loop; that is stated by `ParseTokenTrees.OpenFailureFailsLoop`, at any depth.
- The tests over `mock.sl` read a file and print; they are not modelled.

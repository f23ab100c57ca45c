# iron core, modelled in Dafny

A Dafny model of the core of *iron*, a web browser engine written in Rust.
It covers these parts of the program:

- the HTML tokenizer: its driver loop, the text states, and the tag-open,
  end-tag-open, tag-name and RCDATA/RAWTEXT end-tag states, together with
  the tokens, tags and DOCTYPEs it builds;
- the helpers of the HTML tree builder: the tag-name tests, and the
  algorithm that resets the insertion mode from the stack of open elements;
- the code-point classes of the Infra Standard and its namespaces;
- the byte-at-a-time UTF-8 decoder;
- URL percent-encoding and percent-decoding;
- the line-counting character cursor;
- the UTF-16 string;
- the JavaScript comment recogniser and the JavaScript lexical classes;
- the garbage-collector arena.

Code that works by changing state is modelled imperatively: the tokenizers,
the decoder, the cursor, the strings, the arena and the tag and DOCTYPE
builders are Dafny classes. Each method is proved against a pure
specification function of the old state. Properties of the tokenizer and
the decoder are then proved as lemmas about those functions. The
code-point classes, the namespaces and percent-encoding's helpers are pure
functions.

Files and modules:

| file | module | models |
|---|---|---|
| `base.dfy` | `Wrappers` | `Option`, and `u8`/`u16`/`u32` as subset types |
| `infra_code_point.dfy` | `CodePoint` | `src/infra/code_point.rs` |
| `infra_namespace.dfy` | `Namespace` | `src/infra/namespace.rs` |
| `js_lexical.dfy` | `JsLexical` | `src/js/mod.rs` (the lexical predicates) |
| `js_tokenizer.dfy` | `JsTokenizer` | `src/js/tokenizer/mod.rs` (comments) |
| `gc.dfy` | `Gc` | `src/gc/mod.rs` |
| `utf16_string.dfy` | `Utf16` | `src/string/mod.rs` |
| `utf8_decoder.dfy` | `Utf8` | `src/io/decode/utf8.rs`, and the UTF-8 encoding of a string |
| `percent_encoding.dfy` | `PercentEncoding` | `src/url/percent_encoding.rs` |
| `char_iter.dfy` | `CharIter` | `src/io/iter.rs` |
| `html_detail.dfy` | `HtmlDetail` | `src/html/tokenizer/detail.rs` |
| `html_tokenizer_spec.dfy` | `HtmlTokenizerSpec` | `src/html/tokenizer/mod.rs`, as functions of the tokenizer state |
| `html_tokenizer.dfy` | `HtmlTokenizer` | `src/html/tokenizer/mod.rs`, as a class |
| `html_parser.dfy` | `HtmlParser` | `src/html/parser/mod.rs` |

Panics are modelled as values:

- every `unreachable!()` and every `unwrap()` on `None` that an input can reach
  becomes an explicit outcome (`Panicked`, `Unreachable`, `ok == false`, `None`);
- a precondition is used only where the source itself holds it (for
  example, the `unwrap()` on the current attribute in `Tag`'s appenders).

Several places in the HTML tokenizer behave differently from the WHATWG
HTML Standard. The model follows the code in each of them and proves what
the code does:

- a reconsumed character goes to the next handler directly, and the state
  is not switched; as a result the tag-open state never enters the
  tag-name state (`TagOpenDoesNotSwitch`, `DivIsNotATag`);
- nothing assigns `last_emitted_tag`, and `new` sets it to `None`
  (`PullKeepsLastEmittedTag`); so from `new` no end tag is ever
  appropriate, and RCDATA, RAWTEXT, script data, PLAINTEXT and the
  tag-name state are never entered (`NextFromNewNeverAppropriate`). The
  model's constructor takes the initial state and last start tag as
  parameters so that those states can still be studied;
- an appropriate `>` in the RAWTEXT end-tag-name state emits nothing
  (`AppropriateEndTagClose`).

## Model

| member | source | states |
|---|---|---|
| CodePoint.CharIsScalarValue | src/infra/code_point.rs:26-35 | every Rust/Dafny `char` is at most U+10FFFF and is a scalar value (not a surrogate) |
| CodePoint.NoncharacterPlanes | src/infra/code_point.rs:37-59 | the noncharacters are exactly U+FDD0..U+FDEF and the last two code points of each of the 17 planes |
| CodePoint.AlphaClasses | src/infra/code_point.rs:132-156 | alpha is upper or lower alpha, and the two are disjoint; alphanumeric is digit, upper or lower alpha |
| CodePoint.AsciiHexDigitAsWritten | src/infra/code_point.rs:110-130 | `ascii_hex_digit` is upper or lower hex letter; as written no ASCII digit is a hex digit |
| CodePoint.AsciiHexDigitMissesZero | src/infra/code_point.rs:124-130 | `0` is an Infra ASCII hex digit but `ascii_hex_digit` rejects it |
| CodePoint.InfraAsciiHexDigitIsDigitsAndLetters | src/infra/code_point.rs:103-130 | the corrected hex-digit class is digit or hex letter; it contains the as-written one and lies within alphanumerics |
| CodePoint.ControlClasses | src/infra/code_point.rs:82-101 | control is C0 control or U+007F..U+009F; C0 control or space is C0 control or U+0020 |
| CodePoint.WhitespaceChain | src/infra/code_point.rs:68-91 | tab-or-newline implies ASCII whitespace, which implies C0 control or space |
| CodePoint.AlphanumericIsAscii | src/infra/code_point.rs:61-66 | every alphanumeric is an ASCII code point |
| Namespace.Namespace.AsStr | src/infra/namespace.rs:47-56 | every namespace URI lies under `http://www.w3.org/` |
| Namespace.FromStr | src/infra/namespace.rs:36-46 | a namespace it returns has the given string as its URI |
| Namespace.FromStrAsStr | src/infra/namespace.rs:36-56 | `from_str(as_str(ns)) == Some(ns)` for each of the six namespaces |
| Namespace.AsStrInjective | src/infra/namespace.rs:47-56 | distinct namespaces have distinct URIs |
| Namespace.FromStrExact | src/infra/namespace.rs:36-46 | `from_str` gives `ns` only for `ns`'s exact URI, and `None` exactly when no namespace has that URI |
| JsLexical.ClassMembers | src/js/mod.rs:74-94 | each predicate accepts exactly its listed code points (ZWNJ/ZWJ/ZWNBSP; TAB/VT/FF/SP/NBSP/ZWNBSP; LF/CR/LS/PS) |
| JsLexical.ClassOverlaps | src/js/mod.rs:74-94 | white space and line terminators are disjoint; control meets white space only at U+FEFF; control and line terminators are disjoint |
| JsTokenizer.NotAsteriskChar | src/js/tokenizer/mod.rs:173-185 | matches exactly when a next character exists and is not `*`, consuming one character |
| JsTokenizer.NotSlashOrAsteriskChar | src/js/tokenizer/mod.rs:187-199 | matches exactly when a next character exists and is neither `/` nor `*`, consuming one character |
| JsTokenizer.SingleLineCommentChar | src/js/tokenizer/mod.rs:238-250 | matches exactly when a next character exists and is not a line terminator, consuming one character |
| JsTokenizer.SingleLineComment | src/js/tokenizer/mod.rs:201-217 | matches exactly when the input at the cursor starts with `//`, and ends within the input |
| JsTokenizer.SingleLineCommentChars | src/js/tokenizer/mod.rs:219-236 | matches exactly when one comment character matches, and ends past it within the input |
| JsTokenizer.MultiLineCommentChars | src/js/tokenizer/mod.rs:105-137 | matches exactly when a character is left, and ends past it within the input |
| JsTokenizer.PostAsteriskCommentChars | src/js/tokenizer/mod.rs:139-171 | matches exactly when a character other than `/` is left, and ends past it within the input |
| JsTokenizer.Comment | src/js/tokenizer/mod.rs:57-78 | matches exactly when a multi-line or a single-line comment matches |
| JsTokenizer.MultiLineComment | src/js/tokenizer/mod.rs:80-103 | a match spans at least `/` `*` `*` `/` and ends within the input |
| JsTokenizer.Tokenizer.constructor | src/js/tokenizer/mod.rs:40-46 | the tokenizer holds the script with the cursor at its start |
| JsTokenizer.Tokenizer.MultiLineNotAsteriskChar | src/js/tokenizer/mod.rs:173-185 | reports the grammar function's match; the cursor moves to its end, or is restored on no match |
| JsTokenizer.Tokenizer.MultiLineNotForwardSlashOrAsteriskChar | src/js/tokenizer/mod.rs:187-199 | reports the grammar function's match; the cursor moves to its end, or is restored on no match |
| JsTokenizer.Tokenizer.SingleLineCommentCharStep | src/js/tokenizer/mod.rs:238-250 | reports the grammar function's match; the cursor moves to its end, or is restored on no match |
| JsTokenizer.Tokenizer.SingleLineCommentCharsStep | src/js/tokenizer/mod.rs:219-236 | reports the grammar function's match; the cursor moves to its end, or is restored on no match |
| JsTokenizer.Tokenizer.MultiLineCommentCharsStep | src/js/tokenizer/mod.rs:105-137 | reports the grammar function's match; the cursor moves to its end, or is restored on no match |
| JsTokenizer.Tokenizer.PostAsteriskCommentCharsStep | src/js/tokenizer/mod.rs:139-171 | reports the grammar function's match; the cursor moves to its end, or is restored on no match |
| JsTokenizer.Tokenizer.MultiLineCommentStep | src/js/tokenizer/mod.rs:80-103 | reports the grammar function's match; the cursor moves to its end, or is restored on no match |
| JsTokenizer.Tokenizer.SingleLineCommentStep | src/js/tokenizer/mod.rs:201-217 | reports the grammar function's match; the cursor moves to its end, or is restored on no match |
| JsTokenizer.Tokenizer.CommentStep | src/js/tokenizer/mod.rs:57-78 | reports whether a comment starts at the cursor; the cursor moves past it, or is restored |
| JsTokenizer.SingleLineCommentCharsMaximal | src/js/tokenizer/mod.rs:219-250 | the comment characters run to the first line terminator or the end of the input, and contain no line terminator |
| JsTokenizer.SingleLineCommentExtent | src/js/tokenizer/mod.rs:201-250 | `//` starts a comment that ends at the first line terminator after it, or at the end of the input |
| JsTokenizer.MultiLineCharsStop | src/js/tokenizer/mod.rs:105-171 | the greedy character matchers stop only at the end of the input or just past a `*` before a `/` |
| JsTokenizer.MultiLineCommentNeverMatches | src/js/tokenizer/mod.rs:80-171 | as written no input whatever is recognised as a multi-line comment |
| JsTokenizer.CommentIsSingleLine | src/js/tokenizer/mod.rs:57-78 | as written `comment` recognises exactly the single-line comments |
| JsTokenizer.EmptyMultiLineCommentRejected | src/js/tokenizer/mod.rs:80-103 | `/**/` is rejected as written, and the corrected recogniser accepts it as four characters |
| JsTokenizer.CloseSearch | src/js/tokenizer/mod.rs:80-103 | finds the end of the first `*` `/` at or after a position, or reports that there is none |
| JsTokenizer.CloseSearchFindsFirst | src/js/tokenizer/mod.rs:80-103 | with no `*` `/` between `k` and `e`, the search from `k` ends just after the one at `e` |
| JsTokenizer.StandardMultiLineCommentExact | src/js/tokenizer/mod.rs:80-103 | the corrected recogniser accepts `/*` body `*/` exactly up to the closing `*/` if and only if body contains no `*/` |
| JsTokenizer.NoCloseReachesEnd | src/js/tokenizer/mod.rs:80-103 | a body without `*/` is recognised up to and including the closing `*/` |
| JsTokenizer.CloseInBodyEndsEarly | src/js/tokenizer/mod.rs:80-103 | a `*/` inside the body ends the comment at that point, before the written closing `*/` |
| Gc.Gc.constructor | src/gc/mod.rs:43-48 | a new arena has no slots and no roots |
| Gc.Gc.Add | src/gc/mod.rs:51-55 | appends one slot holding the object and returns its index; roots are unchanged |
| Gc.Gc.AddRoot | src/gc/mod.rs:57-61 | appends one slot holding the object, returns its index and records it as the last root |
| Gc.AddTwice | src/gc/mod.rs:51-61 | two successive additions return consecutive, strictly increasing handles, each naming its own object |
| Utf16.EncodeChar | src/string/mod.rs:55-70 | one unit equal to the code point inside the BMP; otherwise a high and a low surrogate that recombine to the code point |
| Utf16.EncodeCharRoundTrip | src/string/mod.rs:55-70 | recombining the pushed units gives back the character, and a single unit is never a surrogate |
| Utf16.Utf16String.constructor | src/string/mod.rs:28-30 | a new string has no code units |
| Utf16.Utf16String.PushStr | src/string/mod.rs:38-40 | appends the other string's units; the other string is unchanged |
| Utf16.Utf16String.Push | src/string/mod.rs:50-52 | appends one code unit |
| Utf16.Utf16String.PushChar | src/string/mod.rs:55-70 | appends the UTF-16 encoding of the character |
| Utf8.EncodeChar | src/io/decode/utf8.rs:66-92 | UTF-8 bytes of a scalar value: one byte below U+0080, else a lead byte in C2..F4 followed by continuation bytes 80..BF |
| Utf8.EncodeAsciiString | src/io/decode/utf8.rs:64-65 | an ASCII string is encoded byte for byte |
| Utf8.ReadFrom | src/io/decode/utf8.rs:50-126 | a call of `read` consumes no byte only at the end of the input, reporting `Finished` or clearing a pending sequence |
| Utf8.ShiftIn | src/io/decode/utf8.rs:107 | the low six bits are the continuation byte's, and the bits above are the old code point's low 26 bits (the `u32` shift drops the rest) |
| Utf8.Step | src/io/decode/utf8.rs:54-62 | at the end of the input one loop iteration always stops |
| Utf8.StepAscii | src/io/decode/utf8.rs:64-65 | with nothing pending an ASCII byte is returned as a character and nothing else changes |
| Utf8.StepInvalidLead | src/io/decode/utf8.rs:90-92 | with nothing pending 80..C1 and F5..FF are errors and nothing changes |
| Utf8.StepLead | src/io/decode/utf8.rs:66-89 | a lead byte sets the number of continuation bytes, keeps its low bits, and narrows a bound for E0, EF, F0 and F4 |
| Utf8.StepRejects | src/io/decode/utf8.rs:96-103 | a continuation byte on or outside a bound is returned for re-reading and every field is reset |
| Utf8.StepAccepts | src/io/decode/utf8.rs:105-121 | an accepted continuation byte shifts in six bits and resets the bounds; the last one returns the character or reaches `unreachable!()` |
| Utf8.StepEnd | src/io/decode/utf8.rs:54-62 | at the end of the input a pending sequence is an error that clears only `bytes_needed`; otherwise `Finished` |
| Utf8.ExclusiveBoundsRejectU0080 | src/io/decode/utf8.rs:96 | C2 80 (U+0080) is rejected as written and decoded by the Standard's inclusive test |
| Utf8.NarrowedEfRejectsUF801 | src/io/decode/utf8.rs:76-78 | EF A0 81 (U+F801) is rejected as written and decoded by the Standard |
| Utf8.SurrogateReachesUnreachable | src/io/decode/utf8.rs:76-78 | ED A0 81 reaches the `unreachable!()` as written; the Standard rejects its A0 |
| Utf8.DecodeEncodedChar | src/io/decode/utf8.rs:50-126 | the corrected decoder reads the UTF-8 bytes of any character back as that character, consuming exactly those bytes |
| Utf8.DecodeEncodedString | src/io/decode/utf8.rs:50-126 | repeated reads of the UTF-8 bytes of a string report each character in order, then `Finished` |
| Utf8.StepKeepsInvariant | src/io/decode/utf8.rs:50-126 | one loop iteration keeps the decoder counters and bounds consistent |
| Utf8.ReadKeepsInvariant | src/io/decode/utf8.rs:50-126 | a whole call keeps the invariant, so after a returned character nothing is pending |
| Utf8.Utf8Decoder.constructor | src/io/decode/utf8.rs:38-48 | code point 0, no bytes seen or needed, bounds 80 and BF, reader at its start |
| Utf8.Utf8Decoder.Read | src/io/decode/utf8.rs:50-126 | the new fields, reader position and outcome are those of `ReadFrom` on the old state |
| Utf8.Utf8Decoder.Consume | src/io/decode/utf8.rs:63-121 | one loop iteration on a byte updates the fields as `Step` does, and stops exactly when `Step` stops |
| PercentEncoding.HexChar | src/url/percent_encoding.rs:27-35 | a nibble is written as a lowercase hex digit |
| PercentEncoding.HexValue | src/url/percent_encoding.rs:69-80 | a hex-digit byte has a value below 16 |
| PercentEncoding.PercentEncoded | src/url/percent_encoding.rs:27-35 | `%` and two hex digits whose value is the byte |
| PercentEncoding.Encode | src/url/percent_encoding.rs:27-35 | the pushed buffer is the three-character encoding of the byte |
| PercentEncoding.Decoded | src/url/percent_encoding.rs:37-96 | decoding never yields more bytes than it was given, even with a digit copied twice |
| PercentEncoding.Decode | src/url/percent_encoding.rs:37-96 | the single pass with the skip counter computes the recursive decoding |
| PercentEncoding.DecodeStr | src/url/percent_encoding.rs:98-101 | decodes the string's UTF-8 bytes; a string without `%` comes back as its bytes |
| PercentEncoding.EncodeStringWithoutPercent | src/url/percent_encoding.rs:98-101 | the UTF-8 bytes of a string contain 0x25 only where the string has `%` |
| PercentEncoding.DecodedWithoutPercent | src/url/percent_encoding.rs:47-50 | bytes without `%` are returned unchanged |
| PercentEncoding.DecodedPlainPrefix | src/url/percent_encoding.rs:47-50 | a prefix without `%` is copied ahead of the decoding of the rest |
| PercentEncoding.DecodedTriplet | src/url/percent_encoding.rs:65-83 | `%` and two hex digits become the byte `(hi << 4) \| lo` and decoding goes on after them |
| PercentEncoding.DecodedTruncatedEscape | src/url/percent_encoding.rs:52-64 | a trailing lone `%` is dropped, and a trailing `%d` yields `d` |
| PercentEncoding.DecodedMalformedEscape | src/url/percent_encoding.rs:84-91 | `%x` with non-hex `x` drops the `%`; `%dx` yields `d` and then `d x` again |
| PercentEncoding.EncodeDecodeRoundTrip | src/url/percent_encoding.rs:27-101 | decoding the bytes of an encoded byte gives back that byte |
| PercentEncoding.StandardDecodedKeepsPlainInput | src/url/percent_encoding.rs:37-96 | the corrected decoder leaves input without `%` escapes unchanged, including a malformed `%` |
| PercentEncoding.StandardEncodeDecodeRoundTrip | src/url/percent_encoding.rs:27-101 | the corrected decoder also inverts encoding |
| PercentEncoding.MalformedEscapeDuplicatesDigit | src/url/percent_encoding.rs:84-88 | `%4z` decodes to `44z` as written and to `%4z` by the URL Standard |
| CharIter.Advance | src/io/iter.rs:56-61 | a newline moves to column 0 of the next line; any other character moves one column right |
| CharIter.AdvanceAllAppend | src/io/iter.rs:50-64 | reading one more character moves the position by `Advance` |
| CharIter.AdvanceAllCounts | src/io/iter.rs:56-61 | the line grows by the number of newlines read; without a newline the column grows by the number read |
| CharIter.ColumnAfterLastNewline | src/io/iter.rs:56-61 | after the last newline the column is the count of characters since it, and the line counts the newlines |
| CharIter.AdvanceAllSplit | src/io/iter.rs:66-77 | reading two pieces is reading the first and then the second |
| CharIter.CharWithOffsetIterator.constructor | src/io/iter.rs:31-38 | the text, position 0, line 0, column 0 |
| CharIter.CharWithOffsetIterator.Read | src/io/iter.rs:50-64 | at the end returns `None` and changes nothing; otherwise returns the character at `pos` and moves line/column by it, leaving `pos` as it was |
| CharIter.CharWithOffsetIterator.Seek | src/io/iter.rs:40-48 | resets to the start, then line/column are those of reading the first character `new_pos` times |
| CharIter.CharWithOffsetIterator.ReadMultiple | src/io/iter.rs:66-77 | at the end reads nothing; otherwise fills the whole buffer with the character at `pos` and counts them all |
| CharIter.CharWithOffsetIterator.Backtrack | src/io/iter.rs:79-92 | succeeds exactly when no panic or underflow is hit; steps back one; a newline at `pos` lowers the line and sets the column to 5000 |
| CharIter.CharWithOffsetIterator.BacktrackMultiple | src/io/iter.rs:94-111 | succeeds exactly when in bounds and the line counter does not underflow; resets to the start when the count reaches `pos`, else steps back `count` and lowers the line by the newlines passed |
| CharIter.CharWithOffsetIterator.ReadAdvancing | src/io/iter.rs:50-64 | the corrected read moves `pos` past the character and keeps line/column tracking the text read |
| CharIter.CharWithOffsetIterator.SeekAdvancing | src/io/iter.rs:40-48 | the corrected seek ends at `new_pos` (or the end) with line/column tracking the text read |
| CharIter.CharWithOffsetIterator.BacktrackRestoring | src/io/iter.rs:79-92 | the corrected backtrack steps back over the character before `pos` (refusing only at the start) and keeps line/column tracking the text read |
| CharIter.CharWithOffsetIterator.BacktrackMultipleRestoring | src/io/iter.rs:94-111 | the corrected multiple backtrack ends `count` characters back, or at the start, with line/column tracking the text read |
| CharIter.CharWithOffsetIterator.ReadThenBacktrack | src/io/iter.rs:50-92 | a corrected read followed by a corrected backtrack restores `pos`, line and column |
| CharIter.BacktrackDoesNotUndoRead | src/io/iter.rs:79-92 | after reading `a` of "ab", `Backtrack` returns to `pos` 0 but at column 1; after reading `a` of "a\n" it is refused; the corrected backtrack gives column 0, and line 0, column 1 from after the newline |
| CharIter.NewlinesStepBack | src/io/iter.rs:104-110 | one more step back passes one more character, adding a newline exactly when it is one |
| CharIter.NewlinesGrow | src/io/iter.rs:104-110 | stepping back further passes at least as many newlines |
| CharIter.ReadDoesNotAdvance | src/io/iter.rs:50-64 | two `Read` calls on "ab" both return `a`, leaving `pos` at 0 and the position at line 0, column 2; the advancing read returns `b` second |
| CharIter.SeekCountsFirstCharacter | src/io/iter.rs:40-48 | `Seek(3)` on "a\nb" leaves `pos` at 0 and counts three `a`s (line 0, column 3); the advancing seek ends at `pos` 3, line 1, column 1 |
| HtmlDetail.NewAttribute | src/html/tokenizer/detail.rs:31-38 | an attribute with empty name and value |
| HtmlDetail.NewComment | src/html/tokenizer/detail.rs:53-58 | a comment with empty text |
| HtmlDetail.NewTag | src/html/tokenizer/detail.rs:125-132 | empty name, not self-closing, the given end-tag flag, no attribute list |
| HtmlDetail.AppendToOptional | src/html/tokenizer/detail.rs:84-104 | `None` becomes the one-character string, `Some(s)` becomes `s` plus the character |
| HtmlDetail.WithNewAttribute | src/html/tokenizer/detail.rs:134-140 | the same tag with one empty attribute added after the existing ones (creating the list if needed) |
| HtmlDetail.UpdateLast | src/html/tokenizer/detail.rs:142-155 | only the last attribute is replaced |
| HtmlDetail.WithAttrNameChar | src/html/tokenizer/detail.rs:142-145 | appends the character to the last attribute's name; everything else is unchanged |
| HtmlDetail.WithAttrValueString | src/html/tokenizer/detail.rs:147-155 | appends the string to the last attribute's value; everything else is unchanged |
| HtmlDetail.AttrValueStringIsCharByChar | src/html/tokenizer/detail.rs:147-155 | appending a string equals appending its characters one at a time |
| HtmlDetail.SelfClosingIdempotent | src/html/tokenizer/detail.rs:157-160 | setting the self-closing flag is idempotent |
| HtmlDetail.Doctype.constructor | src/html/tokenizer/detail.rs:75-82 | quirks off, no name and no identifiers |
| HtmlDetail.Doctype.AppendToName | src/html/tokenizer/detail.rs:84-89 | extends the name (creating it if absent); nothing else changes |
| HtmlDetail.Doctype.AppendToPublicId | src/html/tokenizer/detail.rs:91-96 | extends the public identifier; nothing else changes |
| HtmlDetail.Doctype.AppendToSystemId | src/html/tokenizer/detail.rs:98-103 | extends the system identifier; nothing else changes |
| HtmlDetail.Doctype.Clone | src/html/tokenizer/detail.rs:106-115 | a copy of every field |
| HtmlDetail.Tag.constructor | src/html/tokenizer/detail.rs:125-132 | the fields of `NewTag(end_tag)` |
| HtmlDetail.Tag.CreateAttribute | src/html/tokenizer/detail.rs:134-140 | the tag gains one empty attribute at the end |
| HtmlDetail.Tag.AppendToCurAttrName | src/html/tokenizer/detail.rs:142-145 | the last attribute's name gains the character |
| HtmlDetail.Tag.AppendToCurAttrValue | src/html/tokenizer/detail.rs:147-150 | the last attribute's value gains the character |
| HtmlDetail.Tag.AppendToCurAttrValueStr | src/html/tokenizer/detail.rs:152-155 | the last attribute's value gains the string, the same as appending it character by character |
| HtmlDetail.Tag.SetSelfClosingFlag | src/html/tokenizer/detail.rs:157-160 | sets the flag; nothing else changes |
| HtmlDetail.Tag.Clone | src/html/tokenizer/detail.rs:162-171 | a copy of every field |
| HtmlTokenizerSpec.TokensOf | src/html/tokenizer/mod.rs:429-443 | the emitted tokens, or none for an emission without tokens |
| HtmlTokenizerSpec.CharTokens | src/html/tokenizer/mod.rs:106-112 | one character token per character, in order |
| HtmlTokenizerSpec.LowercaseFromAsciiUpper | src/html/tokenizer/mod.rs:80-83 | the character 0x20 above, when that is a scalar value; an ASCII upper letter maps to a lower letter |
| HtmlTokenizerSpec.EndTagAppropriate | src/html/tokenizer/mod.rs:98-104 | false without a last start tag; the missing-tag panic without a current tag; otherwise whether the names match |
| HtmlTokenizerSpec.DataStep | src/html/tokenizer/mod.rs:250-268 | at most one token; end of input emits EOF and changes nothing |
| HtmlTokenizerSpec.RcdataStep | src/html/tokenizer/mod.rs:270-288 | at most one token; end of input emits EOF and changes nothing |
| HtmlTokenizerSpec.RawtextStep | src/html/tokenizer/mod.rs:290-303 | at most one token; end of input emits EOF and changes nothing |
| HtmlTokenizerSpec.ScriptDataStep | src/html/tokenizer/mod.rs:305-318 | at most one token; end of input emits EOF and changes nothing |
| HtmlTokenizerSpec.PlaintextStep | src/html/tokenizer/mod.rs:320-329 | always exactly one token and no state change; EOF at the end |
| HtmlTokenizerSpec.PushToTagName | src/html/tokenizer/mod.rs:391-427 | appends to the current tag's name, or panics when there is none |
| HtmlTokenizerSpec.TagNameStep | src/html/tokenizer/mod.rs:391-427 | at most one token; end of input emits EOF and changes nothing |
| HtmlTokenizerSpec.TagOpenStep | src/html/tokenizer/mod.rs:331-362 | end of input emits `<` and EOF |
| HtmlTokenizerSpec.EndTagOpenStep | src/html/tokenizer/mod.rs:364-389 | end of input emits `<`, `/` and EOF |
| HtmlTokenizerSpec.TextStep | src/html/tokenizer/mod.rs:270-303 | the RCDATA or RAWTEXT handler: at most one token, EOF at the end with no change, the last start tag kept |
| HtmlTokenizerSpec.LessThanSignStep | src/html/tokenizer/mod.rs:429-443 | anything but `/` emits `<` (and the reconsumed output); EOF emits `<` and EOF |
| HtmlTokenizerSpec.EndTagOpenTextStep | src/html/tokenizer/mod.rs:445-461 | end of input emits `<`, `/` and EOF |
| HtmlTokenizerSpec.EndTagNameFallback | src/html/tokenizer/mod.rs:463-506 | emits `<`, `/`, the buffered characters and the text handler's output, ending as the text handler does |
| HtmlTokenizerSpec.PushEndTagLetter | src/html/tokenizer/mod.rs:463-506 | the lower-cased letter goes into the tag's name and the typed one into the buffer, or the missing-tag panic |
| HtmlTokenizerSpec.IfAppropriate | src/html/tokenizer/mod.rs:463-506 | a delimiter's action keeps the last start tag and a non-empty emission stays non-empty |
| HtmlTokenizerSpec.EndTagNameStep | src/html/tokenizer/mod.rs:463-583 | end of input is the fallback; emitted lists are non-empty; the last start tag is kept |
| HtmlTokenizerSpec.Dispatch | src/html/tokenizer/mod.rs:128-236 | no handler changes the last start tag; emissions are non-empty; the end of input always ends the loop |
| HtmlTokenizerSpec.Pull | src/html/tokenizer/mod.rs:127-245 | the loop ends with a non-empty list of tokens or a panic, within the input |
| HtmlTokenizerSpec.PullAfterStep | src/html/tokenizer/mod.rs:127-245 | a handler returning nothing lets the loop read on; otherwise the loop ends with what it returned |
| HtmlTokenizerSpec.NextSpec | src/html/tokenizer/mod.rs:120-245 | `next()` keeps the tokenizer valid and the input, and never moves back |
| HtmlTokenizerSpec.NextMany | src/html/tokenizer/mod.rs:120-245 | `n` calls give at most `n` outcomes |
| HtmlTokenizerSpec.DataSwitches | src/html/tokenizer/mod.rs:250-268 | `&` records the data state and switches to character reference; `<` switches to tag open |
| HtmlTokenizerSpec.NulInTextStates | src/html/tokenizer/mod.rs:250-329 | NUL is emitted as itself in data and as U+FFFD in the other text states, with no state change |
| HtmlTokenizerSpec.EofInTextStates | src/html/tokenizer/mod.rs:250-329 | at the end of the input a text state emits exactly EOF and changes nothing |
| HtmlTokenizerSpec.EofRepeats | src/html/tokenizer/mod.rs:120-329 | once the input is used up every further `next()` in a text state yields EOF |
| HtmlTokenizerSpec.TagNameCharacters | src/html/tokenizer/mod.rs:391-427 | whitespace, `/`, `>`, upper letters, NUL and other characters do what the tag-name state says |
| HtmlTokenizerSpec.TagNameWithoutTag | src/html/tokenizer/mod.rs:391-427 | with no current tag, whitespace and `/` switch state, `>` returns to data emitting nothing, and any other character is the missing-tag panic |
| HtmlTokenizerSpec.EndTagAppropriateMeaning | src/html/tokenizer/mod.rs:98-104 | appropriate exactly when there is a last start tag and a current tag with the same name; the panic exactly when the current tag is missing |
| HtmlTokenizerSpec.DispatchStaysReachable | src/html/tokenizer/mod.rs:129-228 | from a machine `new` can reach (data, tag-open, end-tag-open or an unimplemented state, no last start tag), every handler leads to another |
| HtmlTokenizerSpec.PullStaysReachable | src/html/tokenizer/mod.rs:120-245 | the driver's loop keeps the machine among those `new` can reach |
| HtmlTokenizerSpec.NextFromNewNeverAppropriate | src/html/tokenizer/mod.rs:51-65 | after `next()` from `new`, no end tag is appropriate, and the state is not RCDATA, RAWTEXT, script data, PLAINTEXT or tag name |
| HtmlTokenizerSpec.PullKeepsLastEmittedTag | src/html/tokenizer/mod.rs:120-245 | as written the last start tag never changes while tokenizing |
| HtmlTokenizerSpec.EndTagNameLetters | src/html/tokenizer/mod.rs:463-583 | a letter is lower-cased into the tag's name and kept as typed in the buffer |
| HtmlTokenizerSpec.EndTagNameOtherCharacters | src/html/tokenizer/mod.rs:463-583 | a letter with no current tag is the missing-tag panic; any other non-delimiter, or the end of input, takes the fallback whatever the tag |
| HtmlTokenizerSpec.EndTagNameMismatch | src/html/tokenizer/mod.rs:463-583 | a non-letter in an end tag that is not appropriate emits `<`, `/`, the buffer and the text output |
| HtmlTokenizerSpec.AppropriateEndTagClose | src/html/tokenizer/mod.rs:497-580 | an appropriate `>` emits the tag in RCDATA but emits nothing in RAWTEXT, switching to data in both |
| HtmlTokenizerSpec.TagOpenDoesNotSwitch | src/html/tokenizer/mod.rs:331-389 | a letter in tag open or end-tag open creates a tag but the state stays where it was |
| HtmlTokenizerSpec.TextStatesSwitch | src/html/tokenizer/mod.rs:270-318 | RCDATA's `&` records RCDATA and switches to character reference; `<` switches RCDATA, RAWTEXT and script data to their less-than-sign states; nothing is emitted |
| HtmlTokenizerSpec.TextStatesEmitOther | src/html/tokenizer/mod.rs:250-329 | in each text state a character with no meaning there is emitted as itself and nothing changes |
| HtmlTokenizerSpec.TagOpenOther | src/html/tokenizer/mod.rs:331-362 | `!` and `/` switch to markup declaration and end tag open; `?` panics in the bogus-comment handler; an upper letter starts a tag named in lower case; anything else emits `<` and the data handler's output |
| HtmlTokenizerSpec.EndTagOpenBogus | src/html/tokenizer/mod.rs:364-389 | an upper letter starts an end tag named in lower case; `<` switches to data and emits nothing; any other character panics in the bogus-comment handler |
| HtmlTokenizerSpec.LessThanSignReconsumes | src/html/tokenizer/mod.rs:429-443 | `/` clears the buffer and switches to end-tag open; anything else emits `<` then the text handler's output, ending where the text handler ends |
| HtmlTokenizerSpec.EndTagOpenTextNonLetter | src/html/tokenizer/mod.rs:445-461 | a non-letter emits `<`, `/` then the text handler's output, ending where the text handler ends |
| HtmlTokenizerSpec.EndTagNameDelimiters | src/html/tokenizer/mod.rs:463-506 | on an appropriate end tag whitespace switches to before attribute name and `/` to self-closing start tag; with a last start tag but no current tag, whitespace, `/` and `>` are the missing-tag panic |
| HtmlTokenizerSpec.NextDrainsQueueFirst | src/html/tokenizer/mod.rs:121-125 | a queued token is handed out first, without reading input |
| HtmlTokenizerSpec.Yields | src/html/tokenizer/mod.rs:121-125 | one `Yield` per token, in order |
| HtmlTokenizerSpec.QueueFifo | src/html/tokenizer/mod.rs:121-125 | the queue comes out in order |
| HtmlTokenizerSpec.NextAfterPull | src/html/tokenizer/mod.rs:231-240 | with an empty queue `next()` returns the first emitted token and queues the rest |
| HtmlTokenizerSpec.EmittedTokensInOrder | src/html/tokenizer/mod.rs:231-240 | a handler's whole list of tokens is returned by successive calls, in order |
| HtmlTokenizerSpec.NextManyUnfold | src/html/tokenizer/mod.rs:120-245 | one call that does not panic, then the rest |
| HtmlTokenizerSpec.DivIsNotATag | src/html/tokenizer/mod.rs:331-362 | as written "<div>" in the data state yields the characters `<`, `>`, `<` and EOF, and no tag |
| HtmlTokenizer.HtmlTokenizer.constructor | src/html/tokenizer/mod.rs:51-65 | `new` generalised to a given initial state and last start tag (`new` is the data state and `None`); no return state, no tag, empty buffer and queue, input at its start |
| HtmlTokenizer.HtmlTokenizer.Read | src/html/tokenizer/mod.rs:127 | the next character and one step forward, or `None` at the end |
| HtmlTokenizer.HtmlTokenizer.EndTagAppropriateNow | src/html/tokenizer/mod.rs:98-104 | the value of `EndTagAppropriate` on the current fields |
| HtmlTokenizer.HtmlTokenizer.TempBufToTokens | src/html/tokenizer/mod.rs:106-112 | one character token per buffered character, in order |
| HtmlTokenizer.HtmlTokenizer.HandleData | src/html/tokenizer/mod.rs:250-268 | state and output are those of `DataStep` on the old state |
| HtmlTokenizer.HtmlTokenizer.HandleRcdata | src/html/tokenizer/mod.rs:270-288 | state and output are those of `RcdataStep` on the old state |
| HtmlTokenizer.HtmlTokenizer.HandleRawtext | src/html/tokenizer/mod.rs:290-303 | state and output are those of `RawtextStep` on the old state |
| HtmlTokenizer.HtmlTokenizer.HandleScriptData | src/html/tokenizer/mod.rs:305-318 | state and output are those of `ScriptDataStep` on the old state |
| HtmlTokenizer.HtmlTokenizer.HandlePlaintext | src/html/tokenizer/mod.rs:320-329 | output is that of `PlaintextStep`; nothing changes |
| HtmlTokenizer.HtmlTokenizer.HandleText | src/html/tokenizer/mod.rs:270-303 | the RCDATA or RAWTEXT handler, as `TextStep` says |
| HtmlTokenizer.HtmlTokenizer.PushToTag | src/html/tokenizer/mod.rs:391-427 | the current tag's name grows as `PushToTagName` says, or the missing-tag panic |
| HtmlTokenizer.HtmlTokenizer.HandleTagName | src/html/tokenizer/mod.rs:391-427 | state, tag and output are those of `TagNameStep` |
| HtmlTokenizer.HtmlTokenizer.HandleTagOpen | src/html/tokenizer/mod.rs:331-362 | state, tag and output are those of `TagOpenStep`; a new tag is a fresh object |
| HtmlTokenizer.HtmlTokenizer.HandleEndTagOpen | src/html/tokenizer/mod.rs:364-389 | state, tag and output are those of `EndTagOpenStep`; a new tag is a fresh object |
| HtmlTokenizer.HtmlTokenizer.HandleLessThanSign | src/html/tokenizer/mod.rs:429-443 | state, buffer and output are those of `LessThanSignStep` |
| HtmlTokenizer.HtmlTokenizer.HandleEndTagOpenText | src/html/tokenizer/mod.rs:445-461 | state, tag, buffer and output are those of `EndTagOpenTextStep` |
| HtmlTokenizer.HtmlTokenizer.EndTagNameFallbackNow | src/html/tokenizer/mod.rs:463-506 | the fallback: state and output of `EndTagNameFallback` |
| HtmlTokenizer.HtmlTokenizer.PushEndTagLetterNow | src/html/tokenizer/mod.rs:463-506 | tag and buffer as `PushEndTagLetter` says |
| HtmlTokenizer.HtmlTokenizer.HandleEndTagName | src/html/tokenizer/mod.rs:463-583 | state, tag, buffer and output are those of `EndTagNameStep` |
| HtmlTokenizer.HtmlTokenizer.CloseEndTagIfAppropriate | src/html/tokenizer/mod.rs:463-583 | whitespace, `/` and `>` act as `EndTagNameStep` says |
| HtmlTokenizer.HtmlTokenizer.Dispatch | src/html/tokenizer/mod.rs:128-236 | the handler for the current state, with the state and output of the specification's `Dispatch` |
| HtmlTokenizer.HtmlTokenizer.DispatchText | src/html/tokenizer/mod.rs:129-133 | the five text states, as `Dispatch` says |
| HtmlTokenizer.HtmlTokenizer.DispatchTag | src/html/tokenizer/mod.rs:134-137 | the tag states, as `Dispatch` says |
| HtmlTokenizer.HtmlTokenizer.DispatchRcdataEndTag | src/html/tokenizer/mod.rs:137-140 | the RCDATA end-tag states, as `Dispatch` says |
| HtmlTokenizer.HtmlTokenizer.DispatchRawtextEndTag | src/html/tokenizer/mod.rs:140-143 | the RAWTEXT end-tag states, as `Dispatch` says |
| HtmlTokenizer.HtmlTokenizer.ReadAndDispatch | src/html/tokenizer/mod.rs:127-245 | one round of the loop: reads on when nothing was returned, or ends as `Pull` ends |
| HtmlTokenizer.HtmlTokenizer.RunUntilTokens | src/html/tokenizer/mod.rs:127-245 | the loop ends where `Pull` ends, in the same state and with the same output |
| HtmlTokenizer.HtmlTokenizer.Next | src/html/tokenizer/mod.rs:120-245 | the new tokenizer and the result are those of `NextSpec` on the old one |
| HtmlParser.StartTagWithNames | src/html/parser/mod.rs:82-94 | true exactly when the tag is a start tag whose name is in the list |
| HtmlParser.EndTagWithNames | src/html/parser/mod.rs:100-112 | true exactly when the tag is an end tag whose name is in the list |
| HtmlParser.StartOrEndTag | src/html/parser/mod.rs:78-98 | a tag is never both a start and an end tag of a name, and has that name exactly when it is one of them |
| HtmlParser.HtmlElemNamed | src/html/parser/mod.rs:124-127 | true exactly for an element whose namespace URI is the XHTML one and whose local name is the given name |
| HtmlParser.SelectScan | src/html/parser/mod.rs:147-156 | the `select` entry gives "in select" or "in select in table" |
| HtmlParser.ResetScanIsTopmostDecision | src/html/parser/mod.rs:130-185 | the result is the mode of the topmost entry that decides anything |
| HtmlParser.NoDecisionGivesInBody | src/html/parser/mod.rs:182-184 | with no deciding entry (for instance an empty stack) the mode is "in body" |
| HtmlParser.ForeignEntriesContinue | src/html/parser/mod.rs:140-145 | entries outside the HTML namespace never decide |
| HtmlParser.SelectScanFindsTable | src/html/parser/mod.rs:147-156 | "in select in table" exactly when a table lies below with no template between |
| HtmlParser.CellAndHeadOnlyAboveBottom | src/html/parser/mod.rs:157-172 | `td`, `th` and `head` decide only above the bottom entry, giving "in cell" or "in head" |
| HtmlParser.HtmlAndTemplateEntries | src/html/parser/mod.rs:167-180 | `html` gives "before head" exactly when there is no head element, else "after head"; `template` gives the current template mode |
| HtmlParser.NodeAt | src/html/parser/mod.rs:131-138 | the node looked at is the entry itself, except that a context element stands in for the bottom entry |
| HtmlParser.Decide | src/html/parser/mod.rs:139-180 | an entry's decision is the empty-template panic only for an HTML `template` with no template insertion mode |
| HtmlParser.ResetScan | src/html/parser/mod.rs:130-185 | the scan of the entries below `k` panics only when there is no template insertion mode |
| HtmlParser.ResetSpec | src/html/parser/mod.rs:130-185 | resetting the insertion mode panics only when there is no template insertion mode |
| HtmlParser.ResetScanSkipsContinuing | src/html/parser/mod.rs:130-185 | entries that decide nothing are passed over: the scan gives what the scan below them gives |
| HtmlParser.ContextReplacesBottom | src/html/parser/mod.rs:131-138 | for any stack, the bottom entry decides as the context element alone would, every entry above decides as without a context, and when those all pass the mode is that of the context element alone |
| HtmlParser.ContextAtBottomExamples | src/html/parser/mod.rs:131-160 | with one `p` open, a `td` context gives "in body", a `tr` context "in row", and no context "in body" |
| HtmlParser.HtmlParser.constructor | src/html/parser/mod.rs:58-76 | every field has its initial value |
| HtmlParser.HtmlParser.SelectModeBelow | src/html/parser/mod.rs:147-156 | the loop over the ancestors computes `SelectScan` |
| HtmlParser.HtmlParser.ResetInsertionMode | src/html/parser/mod.rs:130-185 | the reverse loop over the stack computes `ResetSpec`; `None` is the `unwrap()` on an empty template stack |

## Left out

- I/O. The HTML tokenizer and the JavaScript tokenizer read characters
  through a line-counting iterator whose source is not part of this model.
  Each is modelled as a string and a position.
- UTF-8 reader. `Utf8Decoder`'s `Read` reader is modelled as a byte
  sequence and a position. An error from the reader is treated as the end
  of the input. A real reader reports the end by returning `Ok(0)`, and
  the program would then read byte 0; that is not modelled.
- RcDom. Element handles of the tree builder are modelled as their
  expanded name (namespace and local name). The `RcDom` and its `document`
  field are not modelled. `elem_name`'s panic on a handle that is not an
  element is not reachable in this model.
- Tree-builder dispatch. `tree_construction_dispatcher` has a body that
  sets a local flag and does nothing else, so it is not modelled.
- Unimplemented tokenizer handlers. The tokenizer states whose handlers are
  `unreachable!()` (script-data escapes, attributes, comments, DOCTYPEs,
  CDATA, character references) are modelled by the single outcome
  `Panicked(Unimplemented(state))`.
- Unused tokenizer fields. The `attr`, `doctype`, `comment` and
  `char_ref_code` fields of the tokenizer are never used by the implemented
  handlers and are left out.
- `error()`. It is a no-op in the source and is left out.
- `TokenMetadata`. It is only constructed, never used, so it is left out.
- `isomorphic_encode`. It is out of the scope of this model.
- The JavaScript identifier recognisers and `common_token`. They are
  `unimplemented!()` beyond their first branches, so they are left out.
- The `GcVtable` vtable macros. They are left out.
- The trace/mark interface of the garbage collector. It has no
  implementation in the source, so it is left out.
- `Utf16String::with_capacity`, `capacity` and `reserve`. They concern
  allocation only, so they are left out.
- Utf16.Utf16String.PushChar: the `panic!()` for a surrogate
  (string/mod.rs:58) and the `unreachable!()` above U+10FFFF (:68) are not
  modelled: a Dafny `char` is a Unicode scalar value, so neither arm can be
  reached.
- CharIter.CharWithOffsetIterator.Backtrack: a panic (the `unreachable!()`,
  or underflow of `usize`/`u32`) is reported as `ok == false`, with the
  fields left as they were. As written, backtracking does not invert a
  read: it tests the character at `pos` rather than the one stepped back
  over, keeps the column over an ordinary character, and sets it to 5000
  over a newline (see the findings).
- HtmlTokenizer.HtmlTokenizer.constructor: it generalises `new`, which
  always starts in the data state with no last start tag, by taking both
  as parameters; this stands in for the tree builder switching the
  tokenizer's state, which is not part of this model. Called as `new` is,
  no end tag is ever appropriate and the RCDATA and RAWTEXT states cannot
  be reached (`NextFromNewNeverAppropriate`).
- CharIter.CharWithOffsetIterator.BacktrackMultiple: a panic is reported as
  `ok == false`. The state after it is not specified, because the model may
  already have stepped back part of the way when the underflow is reached.
- CharIter.CharWithOffsetIterator: the `u32` counters `line` and `line_pos`
  are unbounded here. Overflow past 2^32 - 1 characters is not modelled.
- Utf8.DecodeEncodedString: proved for the decoder as the Encoding Standard
  specifies it. The as-written decoder rejects some valid input (see the
  findings), so no round trip holds for it.
- HtmlTokenizerSpec.DataStep: its own ensures state only bounds and the end
  of input. The other branches are stated by `DataSwitches`,
  `NulInTextStates` and `TextStatesEmitOther`.
- HtmlTokenizerSpec.RcdataStep: its own ensures state only bounds and the
  end of input. The other branches are stated by `TextStatesSwitch`,
  `NulInTextStates` and `TextStatesEmitOther`.
- HtmlTokenizerSpec.RawtextStep: as for `RcdataStep`.
- HtmlTokenizerSpec.ScriptDataStep: as for `RcdataStep`.
- HtmlTokenizerSpec.PlaintextStep: its own ensures do not name the token.
  `NulInTextStates` and `TextStatesEmitOther` do.
- HtmlTokenizerSpec.TagNameStep: its own ensures state only bounds and the
  end of input. The other branches are stated by `TagNameCharacters` (with
  a current tag) and `TagNameWithoutTag` (without one).
- HtmlTokenizerSpec.TagOpenStep: its own ensures state only bounds and the
  end of input. The other branches are stated by `TagOpenDoesNotSwitch`
  and `TagOpenOther`.
- HtmlTokenizerSpec.EndTagOpenStep: its own ensures state only bounds and
  the end of input. The other branches are stated by
  `TagOpenDoesNotSwitch` and `EndTagOpenBogus`.
- HtmlTokenizerSpec.LessThanSignStep: its own ensures do not give the
  reconsumed output. `LessThanSignReconsumes` does.
- HtmlTokenizerSpec.EndTagOpenTextStep: its own ensures state only bounds
  and the end of input. The other branches are stated by
  `EndTagOpenTextNonLetter` and, for a letter, `EndTagNameLetters`.
- HtmlTokenizerSpec.EndTagNameStep: its own ensures state only bounds and
  the end of input. The other branches are stated by `EndTagNameLetters`,
  `EndTagNameOtherCharacters`, `EndTagNameMismatch`,
  `EndTagNameDelimiters` and `AppropriateEndTagClose`.

## Findings

| source | as written | input that shows it | evidently intended | confidence | as-written member | corrected member |
|---|---|---|---|---|---|---|
| src/io/decode/utf8.rs:96 | a continuation byte equal to the lower or upper bound is rejected (`<=`, `>=`) | C2 80 (U+0080) gives `ErrorWithPrepend(0x80)` | the bounds are inclusive, as in section 8.1.1 of the WHATWG Encoding Standard, so C2 80 decodes to U+0080 | not executed | Utf8.ExclusiveBoundsRejectU0080 | Utf8.DecodeEncodedString |
| src/io/decode/utf8.rs:76-78 | lead byte 0xEF narrows the upper bound to 0x9F | EF A0 81 (U+F801) is rejected; ED A0 81 assembles the surrogate U+D801 and reaches `unreachable!()` | lead byte 0xED narrows the bound, which excludes surrogates | not executed | Utf8.SurrogateReachesUnreachable | Utf8.DecodeEncodedString |
| src/infra/code_point.rs:124-130 | `ascii_hex_digit` accepts only A-F and a-f | `0` (0x30) is not accepted | an ASCII digit or A-F or a-f, as the Infra Standard defines it | not executed | CodePoint.AsciiHexDigitMissesZero | CodePoint.InfraAsciiHexDigitIsDigitsAndLetters |
| src/url/percent_encoding.rs:84-88 | `%` followed by a hex digit and a non-hex byte pushes the digit and then also copies it on the next iteration | `%4z` decodes to `44z` | a `%` not starting a valid escape is copied unchanged, as in the URL Standard: `%4z` stays `%4z` | not executed | PercentEncoding.MalformedEscapeDuplicatesDigit | PercentEncoding.StandardDecodedKeepsPlainInput |
| src/io/iter.rs:50-64 | `read` does not increment `pos`, so it returns the same character forever | reading "ab" twice returns `a` twice, at column 2; `seek(3)` on "a\nb" counts three `a`s | `read` moves `pos` past the character it returns | not executed | CharIter.ReadDoesNotAdvance | CharIter.CharWithOffsetIterator.SeekAdvancing |
| src/io/iter.rs:79-92 | `backtrack` tests `contents[pos]`, the next unread character, not `contents[pos - 1]`; it leaves the column alone over an ordinary character and sets it to 5000 over a newline | after reading `a` of "ab", backtracking gives `pos` 0 at column 1 instead of 0; after reading `a` of "a\n" it would take line 0 below zero | stepping back undoes a read: `pos`, line and column return to their values before it | not executed | CharIter.BacktrackDoesNotUndoRead | CharIter.CharWithOffsetIterator.ReadThenBacktrack |
| src/js/tokenizer/mod.rs:105-171 | the greedy character matchers consume the `*` of the closing `*` `/`, so `multi_line_comment` never finds it | `/**/` is not recognised as a comment | a multi-line comment runs to the first `*` `/`, as in ECMA-262 section 12.4 | not executed | JsTokenizer.MultiLineCommentNeverMatches | JsTokenizer.StandardMultiLineCommentExact |

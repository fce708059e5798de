# icl core, modelled in Dafny

icl is a small HCL-like configuration language written in Go. This project models its core and proves properties of the model:

- the byte-cursor **lexer** and its keyword table;
- the **syntax tree** and its text renderers;
- the two-token-lookahead recursive-descent **parser**;
- the **field-tag engine**:
  - the `icl:"..."` struct-tag parser;
  - the **encoder**, which turns a record into a syntax tree;
  - the **decoder**, which writes a syntax tree into a record.

Modules:

| module | file | what it holds |
|---|---|---|
| `Wrappers` | wrappers.dfy | `Option` and `Result` |
| `Text` | text.dfy | `strings.Split`, `Join` and `HasPrefix` on one-byte separators |
| `Numbers` | numbers.dfy | the `strconv` integer conversions the core calls |
| `Tokens` | token.dfy | token types, the `Token` record, `keywords`, `lookupIdent` |
| `Lexing` | lexer.dfy | the `Lexer` class, plus pure functions for one `NextToken` call (`Step`) and for the token stream (`TokenAt`) |
| `Syntax` | ast.dfy | one closed `Node` datatype and the `String()`/`TokenLiteral()` renderers |
| `Parsing` | parser.dfy | the `Parser` class, one method per parse function |
| `StructTags` | struct_tag.dfy | `parseTags` as a function (`TagsOf`) and as a method with its loop (`ParseTags`) |
| `Records` | records.dfy | the record that replaces Go reflection: types, values, `Zero`, `IsZero` |
| `Decoding` | decoder.dfy | the pure parts (`parseIntKind`, `assignPrimitiveNode`, field lookup, parameter binding) and the `Decoder` class |
| `Encoding` | encoder.dfy | the node builders, the `Encoder` class, and the encode/decode round trips |

## How each file is modelled

- **Imperative parts become classes.**
  - The `Lexer` class keeps the fields of lexer.go (`pos`, `readPos`, `ch`, `line`, `linePos`).
  - Each of its loops is proved to compute a pure function of the input and the old cursor.
  - Ghost fields `stream` and `cursor` name token number *n* of the input and the cursor after *n* calls.
  - `NextToken` is proved to return `stream(count)`.
  - The `Parser` class keeps the lexer, the error list, and the `cur`/`peek` tokens.
  - A ghost `index` places `cur` in the lexer's stream. Every parse method states:
    - which stream tokens it consumed;
    - that errors only grow;
    - that a measure of the tokens left never rises, which proves the mutual recursion ends.
- **Pure parts become functions**:
  - the renderers;
  - the tag parser;
  - `lookupIdent`;
  - the encoder's node builders;
  - the decoder's `assignPrimitiveNode`.
- **Reflection becomes values.** A record is a `Value` that mirrors its `Type`. The decoder's methods take the value they write into and return the value they leave behind. The caller stores it back where the Go code's `reflect.Value` pointed.
  - The `Decoder` class keeps the state the source keeps on `*Decoder`: `paramCounter` and the block-name sets.
  - The block-name sets are keyed by the field's path from the root, in place of its `reflect.Value`.
  - Fresh slice elements get a counter in place of an address.
- **Two revisions in one `Node` type.** The node kinds come from both revisions the core refers to:
  - `IntegerNode` and `ArrayNode`, built by the parser;
  - `NumberNode`, `SliceNode`, `EnvarNode` and `CollectionNode`, built by the encoder and read by the decoder.
  - `Nil` is Go's nil `Node`. `NilAssign` is a nil `*AssignNode` stored in a `Node` interface, which Go does not treat as nil.
- **Where the model follows the code rather than the documented intent:**
  - `expectPeek` never fails, because `peekError` always returns nil. Every parse step after it therefore goes ahead on a mismatch, with one error recorded.
  - The lexer writes each byte with `string(char)`, which Go reads as a code point and writes in UTF-8. A byte from 0x80 up therefore becomes two bytes in a comment, a string or an ILLEGAL literal. `Text.EncodeRune` does the same.
  - `parseBlockNode` expects `(`, not `{`.
  - In `node`, the `BlockNode` case declares a new `err` with `:=`. That variable shadows the outer one, so an error returned by `block` is dropped. Only a panic (or a failed tag parse during the lookup) gets out. `Decoding.Decoder.DecodeNode` states exactly this.
  - In `assign`, the errors of a primitive or element write go into `setErr`, and `assign` still returns nil. The field keeps its old value, or the slice keeps the elements appended before the failure.
  - `NewEncoder` rejects a pointer to a struct, as its condition is written.
  - A number appended to a `[]float32` panics. `strconv.ParseFloat` always returns a float64, and `reflect.Append` refuses it for a float32 slice (decoder.go:383-389). A single float32 field is fine, since `SetFloat` converts.
  - A Go panic is the error `Panic`, which every caller passes on. Panics come from a nil node, `NumField` on a non-struct, a tag segment too short to slice, or a nested `env(env(...))`.

## Model

| member | source | states |
|---|---|---|
| Tokens.LookupIdent | token.go:54-60 | lookupIdent is total and returns only IDENT, TRUE, FALSE or NULL |
| Tokens.LookupIdentCases | token.go:46-60 | each of "true", "false", "null" maps to its keyword type and nothing else does; every other string (case-sensitive, so "True" and "nulls" too) is IDENT |
| Lexing.SkipWhitespace | lexer.go:117-125 | whitespace skipping never moves back, stays inside the input, and stops on a byte that is not space, tab, CR or LF |
| Lexing.SkipWhitespaceRun | lexer.go:117-125 | every byte skipped is a space, tab, CR or LF |
| Lexing.SkipWhitespaceLines | lexer.go:117-125 | the line number grows by exactly the number of LF bytes skipped |
| Lexing.SkipWhitespaceColumn | lexer.go:117-125 | the column counter restarts at each LF: it grows by the bytes skipped when no LF was skipped, otherwise it counts the bytes since the last LF |
| Lexing.IdentEnd | lexer.go:128-136 | the identifier run ends inside the input on a byte that is not an identifier byte |
| Lexing.IdentEndRun | lexer.go:128-136 | every byte of the identifier run is a letter, digit or `_` |
| Lexing.DigitsEnd | lexer.go:218-226 | the digit run ends inside the input on a byte that is not a digit |
| Lexing.DigitsEndRun | lexer.go:218-226 | every byte of the digit run is `0`-`9` |
| Lexing.CommentEnd | lexer.go:171-191 | the comment loop stops on an LF, a CR not followed by LF, or the last byte, and passes no LF |
| Lexing.ScanString | lexer.go:140-169 | the string loop either finds a closing quote after its start or runs out of input, and the buffer never shrinks |
| Lexing.ScanStringCloses | lexer.go:140-169 | the closing quote found is the first quote after the opening one that is not preceded by a backslash |
| Lexing.ScanStringBuffer | lexer.go:140-169 | the buffer holds the bytes up to the closing quote, each written as `string(char)` writes it (the UTF-8 form of the byte taken as a code point, so a byte from 0x80 up becomes two bytes), with each backslash before a quote dropped |
| Text.EncodeRune | lexer.go:152 | `string(char)` on a byte: the byte itself below 0x80; from 0x80 up a lead byte 0xC0-0xDF then one continuation byte 0x80-0xBF, whose payload bits give the code point back |
| Lexing.WriteBytesAscii | lexer.go:185 | writing bytes that are all below 0x80 one `string(char)` at a time gives those bytes unchanged |
| Lexing.WriteBytesLacks | lexer.go:185 | the written text holds an ASCII byte exactly when the input range does, so a written comment holds no LF |
| Lexing.ScanStringUnclosed | lexer.go:140-169 | when the input runs out, no closing quote was passed |
| Lexing.ReadString | lexer.go:140-169 | readStringLiteral leaves the cursor inside the input, on the closing quote or the quote after it |
| Lexing.Step | lexer.go:30-72 | one NextToken call moves the cursor forward, returns EOF at the end of input, never returns COLON, and gives INT tokens a non-empty all-digit literal |
| Lexing.ReadToken | lexer.go:34-71 | the token switch moves past the token it reads and returns EOF only at or past the end |
| Lexing.CommentToken | lexer.go:51-52 | a `#` gives a COMMENT token and the cursor stays inside the input |
| Lexing.StringToken | lexer.go:53-58 | a quote gives a STRING token, or ILLEGAL when the string is not closed |
| Lexing.IdentToken | lexer.go:62-64 | an identifier byte gives an IDENT or keyword token |
| Lexing.NumberToken | lexer.go:66-67 | a digit gives an INT token whose literal is a non-empty run of digits |
| Lexing.PunctuationStep | lexer.go:35-50 | each of `, ( ) { } [ ] =` gives a one-byte token of the matching type, stamped at the byte |
| Lexing.IdentifierStep | lexer.go:61-65 | an identifier is the longest run of identifier bytes from a letter or `_`, and its type is lookupIdent of its literal |
| Lexing.NumberStep | lexer.go:66-67 | a digit starts an INT token holding the longest run of digits; no sign or `.` is read |
| Lexing.CommentStep | lexer.go:51-52 | a comment's literal is the input from `#` to where the loop stops, each byte in its `string(char)` UTF-8 form, so it is those very bytes when all are below 0x80; it holds no LF, starts with `#` unless `#` is the last byte, and the cursor ends just past the stop |
| Lexing.StringStep | lexer.go:53-58 | a STRING literal is the text up to the first quote not preceded by a backslash, `\"` reduced to `"` and every other byte in its `string(char)` UTF-8 form; when the input ends first the token is ILLEGAL holding the last byte in that form; on input without NUL the token is ILLEGAL exactly when no closing quote follows |
| Lexing.IllegalStep | lexer.go:70 | any other byte, `:` `-` `.` among them, gives an ILLEGAL token holding that byte in its `string(char)` UTF-8 form: itself below 0x80, two bytes from 0x80 up, with the column set back by the literal's length |
| Lexing.EofAtEnd | lexer.go:59-60 | on input without NUL, NextToken returns EOF exactly when only whitespace is left |
| Lexing.IterateAdvances | lexer.go:31 | each NextToken call moves the cursor at least one byte, because of the deferred readChar |
| Lexing.ReachesEof | lexer.go:30-72 | after as many calls as there are bytes left, the next call returns EOF |
| Lexing.EofForever | lexer.go:59-60 | on input without NUL, once NextToken returns EOF every later call does too |
| Lexing.Lexer.constructor | lexer.go:23-28 | newLexer primes the cursor on the first byte, and the token stream starts there |
| Lexing.Lexer.ReadChar | lexer.go:85-95 | readChar moves pos to readPos, loads that byte (NUL past the end) and adds one to the column |
| Lexing.Lexer.PeekChar | lexer.go:98-104 | peekChar is the byte after the current one, NUL past the end |
| Lexing.Lexer.ConsumeWhitespace | lexer.go:117-125 | the whitespace loop leaves the cursor where SkipWhitespace says |
| Lexing.Lexer.ReadIdentifier | lexer.go:128-136 | the loop returns the identifier run and leaves the cursor on its last byte |
| Lexing.Lexer.ReadNumber | lexer.go:218-226 | the loop returns the digit run and leaves the cursor on its last byte |
| Lexing.Lexer.ReadStringLiteral | lexer.go:140-169 | the buffer loop returns what ReadString says, None when the input ends first |
| Lexing.Lexer.ReadLineComment | lexer.go:171-191 | the loop writes each byte up to CommentEnd in its `string(char)` UTF-8 form and leaves the cursor on CommentEnd |
| Lexing.Lexer.NextToken | lexer.go:30-72 | each call returns the next token of the input's token stream and moves the cursor forward |
| Lexing.Lexer.ReadNext | lexer.go:30-33 | skipping whitespace, reading a token and the deferred readChar together perform one Step |
| Lexing.Lexer.ReadTokenAtCursor | lexer.go:34-71 | the switch on the current byte reads the token ReadToken describes |
| Lexing.Lexer.ReadDefault | lexer.go:61-71 | the default arm reads an identifier, a number, or one illegal byte in its UTF-8 form, as ReadToken describes |
| Syntax.AstStringAppend | ast.go:10-18 | an empty Ast renders as "", and each statement adds its own text at the end |
| Syntax.ConcatAppend | ast.go:13-15 | rendering statement lists is compositional: the text of two lists in a row is the two texts in a row |
| Syntax.AstTokenLiteral | ast.go:21-27 | an empty Ast's TokenLiteral is "", otherwise the first statement's |
| Syntax.LeafStrings | ast_nodes.go:15-72 | an identifier renders its value (not its token); a string its token literal in quotes; integers and booleans their token literal; null renders NULL |
| Syntax.IndentLines | ast_nodes.go:219-226 | indent keeps the number of lines and puts four spaces in front of each line |
| Syntax.JoinPadded | ast_nodes.go:220-225 | four spaces, then the pieces joined by LF-and-four-spaces, is the padded pieces joined by LF |
| Syntax.JoinNodesIsJoin | ast_nodes.go:86-92 | the ArrayNode element loop is a join of the element texts with ", " |
| Syntax.ArrayString | ast_nodes.go:82-97 | an array renders as "[", the element texts joined by ", ", then "]"; an empty one as "[]" |
| Syntax.EntriesAppend | ast_nodes.go:117-119 | the MapNode entry loop is compositional over the entries |
| Syntax.MapStringAppend | ast_nodes.go:112-124 | a map renders as "{" and LF, one indented `key: value,` line per entry in visiting order, then "}" |
| Syntax.AssignString | ast_nodes.go:140-151 | an assignment renders as the name, " = ", the value's text (nothing for a nil value), then LF |
| Syntax.BlockString | ast_nodes.go:171-183 | a block renders as the key, the parameter text (a space and the literal of each parameter, in order), a space, then the body; each further parameter adds a space and its literal after the earlier parameters and before the body |
| Syntax.StatementsAppend | ast_nodes.go:203-205 | the body statement loop is compositional over the statements |
| Syntax.BodyStringAppend | ast_nodes.go:198-210 | a body renders as "{" and LF, each statement in order indented and followed by LF, then "}" |
| Parsing.ParseNullNode | parser_impl.go:96-98 | parseNullNode builds a NullNode at the current token |
| Parsing.ParseBooleanNode | parser_impl.go:101-103 | parseBooleanNode's value is true exactly for a TRUE token |
| Parsing.ParseStringNode | parser_impl.go:106-108 | parseStringNode's value is the token's literal |
| Parsing.Parser.constructor | parser.go:20-42 | after NewParser, cur is the lexer's next token and peek the one after it, and there are no errors |
| Parsing.Parser.NextToken | parser.go:81-84 | cur becomes the old peek, the parser moves one token along the stream, and the errors stay as they were |
| Parsing.Parser.Errorf | parser.go:75-78 | exactly one error is appended, tagged with the peek token's line and position, and nothing else changes |
| Parsing.Parser.PeekError | parser.go:115-121 | peekError always reports no error, and records one "unexpected token" error exactly when peek has another type |
| Parsing.Parser.ExpectPeek | parser.go:124-131 | expectPeek always moves one token and succeeds; a type mismatch only adds one error |
| Parsing.Parser.Parse | parser.go:44-57 | Parse runs one round per statement until EOF, each at a strictly later stream token than the one before, the first where it starts (none when it starts at EOF); each round's statement is what parseStatement gives at that token (nil for a non-IDENT, a nil assignment when `=` does not follow, else the named assignment); the Ast holds exactly the non-nil ones, in order; errors only grow |
| Parsing.Parser.ParseStatementRound | parser.go:48-53 | one loop round consumes at least one token, never shrinks the errors, and its statement is what parseStatement gives at the round's first token |
| Parsing.Parser.StatementRoundsSnoc | parser.go:47-54 | one more round at a later token extends the rounds Parse has run |
| Parsing.NonNil | parser.go:49-51 | keeping the non-nil statements never lengthens the list and leaves no nil |
| Parsing.NonNilMembers | parser.go:49-51 | a statement is kept exactly when it occurs in the list and is not nil |
| Parsing.NonNilKeepsAll | parser.go:49-51 | a list without nil is kept whole |
| Parsing.Parser.NonNilSnoc | parser.go:49-51 | keeping the non-nil statements is compositional: one more statement adds itself at the end exactly when it is not nil |
| Parsing.Parser.ParseStatement | parser.go:87-101 | an IDENT goes to assignment parsing, and any other token gives nil without moving or recording anything |
| Parsing.Parser.ParseExpression | parser_impl.go:8-21 | a token outside a non-empty allowed list, or without a prefix parser, records that error and gives nil without moving; otherwise the node is built from cur |
| Parsing.Parser.ParsePrefix | parser.go:27-33 | prefix parsers exist only for IDENT, INT, NULL, TRUE, FALSE, STRING and `[`, and each builds its node at cur |
| Parsing.Parser.ParseIntegerNode | parser_impl.go:111-123 | an INT literal gives its value read as strconv.ParseInt with base 0; a literal outside int64 records an error and gives nil |
| Parsing.Parser.ParseIdentifier | parser_impl.go:126-152 | `env ( NAME )` gives an EnvarNode naming NAME, with each mismatched token recorded; any other identifier gives Identifier(literal) without moving |
| Parsing.Parser.ParseArrayNode | parser_impl.go:154-159 | an array is an ArrayNode at `[`, empty exactly when `]` follows directly |
| Parsing.Parser.ParseListEntries | parser_impl.go:23-43 | the list is empty, with one token consumed, when the closer follows the opener; otherwise entry 0 is the node parsed at the token after the opener and each later entry the node parsed right after a comma, at strictly increasing stream positions; a missing closer records one "unexpected token" error |
| Parsing.Parser.ParseListItems | parser_impl.go:31-42 | a non-empty list starts with the node parsed at cur, the comma loop adds the rest, and a missing closer records one "unexpected token" error |
| Parsing.Parser.ParseListTail | parser_impl.go:32-42 | after the first entry, the comma loop runs and then the closer is expected; a missing closer records one "unexpected token" error and the entries are kept |
| Parsing.Parser.ParseCommaEntries | parser_impl.go:32-36 | the comma loop stops when no comma follows, keeps the entries read so far, and adds one entry per comma, each the node right after that comma |
| Parsing.Parser.ParseCommaEntry | parser_impl.go:33-35 | one comma round skips the comma and parses the node on the token right after it |
| Parsing.Parser.ListRoundsSnoc | parser_impl.go:31-36 | an entry at a later token right after a comma extends the entries read so far |
| Parsing.Parser.ParseMapBody | parser_impl.go:45-93 | `{}` gives an empty map; otherwise the first key is not followed by `:`, so one "no prefix parser" error is recorded and the result is nil |
| Parsing.Parser.ParseMapNode | parser_impl.go:161-166 | a MapNode at cur, which has no entries when read from lexer tokens |
| Parsing.Parser.ParseAssignNode | parser_impl.go:169-186 | nil without consuming anything unless peek is `=`; otherwise the name is the current identifier and the value is the expression starting two tokens later |
| Parsing.Parser.ParseBlockNode | parser_impl.go:189-208 | a block is a BlockNode at the key whose parameters are exactly the consecutive STRING/IDENT tokens after the key, in order; its body is exactly the non-nil nodes of the body rounds, which start at the token after the `(` |
| Parsing.Parser.ParseBlockHead | parser_impl.go:190-203 | the key, its run of STRING/IDENT parameters and one more token are consumed; a missing `(` records an error |
| Parsing.Parser.ParseParams | parser_impl.go:196-199 | the parameter loop collects exactly the run of STRING/IDENT tokens from cur, in order |
| Parsing.Parser.ParseBlockBodyNode | parser_impl.go:210-229 | the body loop runs one round per token it stops on before `}` or EOF, at strictly increasing stream positions from the token after `{`; each round's node is what parseNode gives there; the body holds exactly the non-nil round nodes, in order |
| Parsing.Parser.ParseBodyRound | parser_impl.go:218-225 | one body round parses the node at its token, which is neither `}` nor EOF, and then moves at least one token on |
| Parsing.Parser.ParseBodyRounds | parser_impl.go:217-226 | the body loop stops on `}` or EOF and runs one round per token before it, at strictly increasing stream positions from where it starts; the nodes kept are exactly the non-nil round nodes, in order |
| Parsing.Parser.BodyRoundsSnoc | parser_impl.go:217-226 | one more round at a later token extends the body rounds run so far |
| Numbers.ParseIntLiteral | parser_impl.go:114 | strconv.ParseInt with base 0 on an all-digit literal: without a leading 0 (or "0" itself) it is accepted exactly when its decimal value is below 2^63, and gives that value; with a leading 0 it is read as octal, accepted exactly when the octal value exists and is below 2^63, and gives that value |
| Numbers.OctalValueDigits | parser_impl.go:114 | an all-digit text has an octal value exactly when none of its digits is 8 or 9 |
| Numbers.ParseFormatInt | encoder.go:170-171 | the base-10 text of an integer parses back exactly when it is within the signed range |
| Numbers.ParseFormatUint | encoder.go:172-173 | the base-10 text of an unsigned integer parses back exactly when it is within the range |
| StructTags.KeyPrecision | struct_tag.go:27-39 | a dotted key splits into a name and a precision of at least 1, or fails as "invalid icl key" |
| StructTags.EnvScan | struct_tag.go:42-47 | the env loop only fails by an out-of-range slice bound |
| StructTags.TagsOf | struct_tag.go:16-50 | `.param` gives isParam alone; otherwise isParam is false, and precision is -1 exactly when the key has no `.`, at least 1 otherwise |
| StructTags.ParseTags | struct_tag.go:16-50 | the method with its segment loop returns what TagsOf says |
| StructTags.EnvScanLast | struct_tag.go:42-47 | with several qualifying segments, the last one sets env |
| StructTags.EnvScanNone | struct_tag.go:42-47 | with no qualifying segment, env stays empty |
| StructTags.EnvScanBreaks | struct_tag.go:43-46 | the loop fails exactly when some segment is empty or a qualifying one is shorter than `env()` |
| StructTags.PlainKey | struct_tag.go:21-25 | a plain key gives that key, no env, precision -1 |
| StructTags.KeyWithPrecision | struct_tag.go:27-39 | `name.N` with N at least 1 gives key name and precision N |
| StructTags.TagsWithPrecisionAndEnv | struct_tag.go:16-50 | `name.N,env(VAR)` gives key name, precision N and env VAR |
| Decoding.ParseIntKind | decoder.go:404-435 | accepted text gives a value within the signed range of the width; anything else is an error |
| Decoding.ParseUintKind | decoder.go:437-468 | accepted text gives a value below 2 to the width; a sign is an error |
| Decoding.ParseIntKindFormat | decoder.go:404-435 | the decimal text of an integer is accepted exactly when it fits the width |
| Decoding.ParseUintKindFormat | decoder.go:437-468 | the decimal text of an unsigned integer is accepted exactly when it fits the width |
| Decoding.AssignEnv | decoder.go:308-337 | a string field gets the variable's text and a bool field is true exactly when it reads "true"; into a string or bool slice it panics, and no write into a primitive slice succeeds; into any other slice, or a field of any other kind, it changes nothing; success keeps the value well typed |
| Decoding.AssignNumber | decoder.go:356-396 | a number literal only fits int, uint and float kinds, and an unparsable float is "bad number"; appending adds exactly one element; a float parsed for a `[]float32` cannot be appended and panics, since the parsed value is a float64 |
| Decoding.AssignPrimitive | decoder.go:303-402 | a literal must match the field kind (else "invalid type"), a nil node panics; a string or bool is stored (or appended) as is, success keeps the value well typed, and appending only adds at the end; a parsable number appended to a `[]float32` panics |
| Decoding.AppendAll | decoder.go:120-128 | the element loop keeps the existing elements, appends at most one per entry, and keeps the slice well typed |
| Decoding.AppendAllSplit | decoder.go:120-128 | the element loop over two lists in a row is the loop over the first, then, unless that failed, over the second from where the first left off |
| Decoding.AppendAllFailure | decoder.go:120-128 | a failure comes from one entry: the entries before it all succeed, and that entry's write gives exactly the error returned |
| Decoding.LookupFrom | decoder.go:271-300 | the found field is the first eligible one not skipped as an earlier `.param` slot; not found means every field was passed over; a tag error comes from a tagged field |
| Decoding.FieldLookup | decoder.go:262-301 | a found field is eligible for the name, and a lookup on a non-struct panics |
| Decoding.ParamSlot | decoder.go:288-297 | with `.param` fields declared first, the lookup with counter j finds the j-th `.param` field |
| Decoding.ParamBinding | decoder.go:193-214 | with `.param` string fields declared first, parameter i is written to the i-th `.param` field, no other field changes, and the counter advances by the number of parameters |
| Decoding.BindAll | decoder.go:193-214 | the parameter loop keeps the record well typed |
| Decoding.Decoder.constructor | decoder.go:39-45 | NewDecoder starts with a zero counter and no block names seen |
| Decoding.Decoder.FindTargetField | decoder.go:262-301 | the field scan returns what FieldLookup says |
| Decoding.Decoder.AppendElements | decoder.go:120-128 | the element loop returns what AppendAll says |
| Decoding.Decoder.AssignValue | decoder.go:78-163 | the field write returns exactly what AssignField states |
| Decoding.Write | decoder.go:100-161 | the kind switch: a primitive takes assignPrimitiveNode, whose panic is returned and whose other errors are only set aside; a slice needs a SliceNode (else "not a slice") and takes the element loop, whose panic is returned and whose other error is set aside with the elements appended before it; a map needs a MapNode (else "not a map") and only an empty one is written without a panic; any other kind sets aside "unknown"; a returned error leaves the value as it was |
| Decoding.AssignField | decoder.go:78-163 | null leaves a pointer untouched; a non-pointer field is the kind switch on the field; a pointer field runs the kind switch on its pointee (a zero value for a nil pointer), returns its shape error or panic, and is reset to nil exactly when a write error was set aside and the pointee is still zero, otherwise points at the written value; only a panic or a shape error is returned, and a panic leaves the field as it was |
| Decoding.AssignResult | decoder.go:57-70 | a name with no tagged field changes nothing and gives no error; a tag error is returned with nothing changed; a found field takes AssignField's value and error and every other field stays |
| Decoding.BlockStart | decoder.go:182-190 | a slice field or a nil pointer decodes into a fresh zero element of the element type; any other field decodes into itself |
| Decoding.Decoder.WriteKind | decoder.go:100-161 | the kind switch returns what Write states |
| Decoding.Decoder.WriteComposite | decoder.go:113-160 | the slice, map and default branches return what Write states |
| Decoding.Decoder.Assign | decoder.go:57-70 | assign returns what AssignResult states for the current parameter counter |
| Decoding.Decoder.Block | decoder.go:166-228 | a second block of the same name into a non-slice field is an error that changes nothing and leaves the counter at zero; otherwise the counter restarts at zero, the parameters are bound into BlockStart's value, a binding error stops there, and otherwise the body is walked statement by statement from the bound value and counter; the field gets the walk's last value (appended to a slice only when the body finished without error) and the counter is the walk's last |
| Decoding.Decoder.BlockLeavesCounter | decoder.go:167-214 | block leaves the counter where its parameter loop (or the last nested block) left it, not at zero: one parameter bound to the only `.param` field of a struct, with an empty body, leaves it at 1 |
| Decoding.Decoder.Fill | decoder.go:182-227 | from BlockStart's value, the parameter binding and body walk described for Block, with the result reattached to the field; a slice grows by at most one element, and by exactly one without error |
| Decoding.Decoder.BindAndDecode | decoder.go:192-221 | the parameter loop and then, unless it failed, the body walk from the bound value and counter; a binding error is returned with BindAll's value and counter |
| Decoding.Decoder.BindParams | decoder.go:192-214 | the parameter loop returns what BindAll says, counter included |
| Decoding.Decoder.DecodeBody | decoder.go:216-221 | the body loop walks the statements in order: each step is one DecodeNode step (record and parameter counter) from what the previous one left, the walk stops at the first error (the last step's) and otherwise covers every statement, the record returned is the walk's last and the counter is its last counter; the block-name sets only grow |
| Decoding.Decoder.Reattach | decoder.go:223-225 | a slice field gets the new element appended only when the block finished |
| Decoding.Decoder.DecodeNode | decoder.go:230-260 | one step: an assignment is exactly AssignResult at the current counter; a block whose name finds no field changes nothing, a lookup error is returned, and a found block changes only its field (a slice field by at most one element at the end) with only a panic getting out; a nil assignment panics; every other node changes nothing and gives no error |
| Decoding.Decoder.BlockNodeStep | decoder.go:236-245 | the BlockNode case of node meets the block clause of that step |
| Decoding.Decoder.Decode | decoder.go:47-55 | Decode walks the Ast's statements in order from the target, one DecodeNode step each (record and parameter counter), stops at the first error and returns it, covers every statement otherwise, and leaves the target as the walk's last record; block-name sets only grow |
| Encoding.BuildPrimitive | encoder.go:161-179 | an env tag gives `env(NAME)` whatever the value; otherwise a primitive gives its literal node and anything else "invalid kind" |
| Encoding.BuildNode | encoder.go:56-159 | a nil pointer gives `key = null`; a `.param` primitive is an error; env on a slice, struct or map is an error; a struct slice gives a collection whose blocks are exactly what the element loop builds, block k being BuildStruct of item k; other slices and maps give `key = [...]`/`{...}` whose items are exactly what the element and entry loops build; a non-empty slice or map of a non-primitive, non-struct kind is "invalid kind" |
| Encoding.BuildElems | encoder.go:97-114 | one node per slice element, in order: node k is what BuildStruct gives for item k (a block with the key) for struct elements, otherwise the literal BuildPrimitive gives for item k; a non-primitive element kind without env is "invalid kind" |
| Encoding.BuildEntries | encoder.go:139-148 | one entry per map entry, in order: the key as a string node and the value as the literal BuildPrimitive gives for it; a non-primitive element kind without env is "invalid kind" |
| Encoding.BuildStruct | encoder.go:181-226 | a struct gives a block named by the key whose parameters are its `.param` strings in order and whose body has one node per other tagged field; it succeeds only when every `.param` field is a string |
| Encoding.StructMatchesEncode | encoder.go:181-226 | buildStructNode succeeds exactly when every `.param` field is a string and Encode of the struct with its `.param` fields untagged has no error; the block is then the key, the `.param` strings as parameters, and exactly the nodes that Encode emits as body |
| Encoding.BuildFields | encoder.go:187-217 | the field loop collects the `.param` strings in order and one body node per other tagged field, and fails on a `.param` field that is not a string |
| Encoding.BodyMatchesEncode | encoder.go:187-217 | from any field on, with or without `.param` fields, the field loop of buildStructNode succeeds exactly when every `.param` field is a string and the Encode loop over the untagged fields has no error; then its parameters are the `.param` strings and its body exactly what that Encode loop emits |
| Encoding.Unparam | encoder.go:187-217 | untagging keeps every field's type and position and removes exactly the `.param` tags |
| Encoding.StringParamsAll | encoder.go:201-204 | the recursive "every `.param` field is a string" check agrees with the quantified one |
| Encoding.ParamMatches | encoder.go:199-206 | the BodyMatchesEncode statement from a `.param` field, which Encode passes over |
| Encoding.FieldMatches | encoder.go:188-198 | the BodyMatchesEncode statement from any other field, where both loops build the same node |
| Encoding.ParamShift | encoder.go:199-208 | over a `.param` field, the match between the field loop of buildStructNode and the Encode loop from the next field on carries back to this field |
| Encoding.FieldShift | encoder.go:187-216 | over any other field, the same match carries back one field |
| Encoding.EncodeFields | encoder.go:31-51 | without an error, one node per tagged field |
| Encoding.EncodeStep | encoder.go:31-51 | an untagged field is skipped; a bad tag or a failing field stops the walk with that error; otherwise the field's node comes first |
| Encoding.Encoder.Encode | encoder.go:30-54 | the Ast gains one node per tagged field, in declaration order, and the first field error stops the loop and is returned |
| Encoding.NewEncoder | encoder.go:16-27 | only a struct value is accepted, and the encoder starts with an empty Ast |
| Encoding.PrimitiveRoundTrip | encoder.go:165-173 | a string, bool or integer encodes to a literal that assignPrimitiveNode reads back as the same value |
| Encoding.PrimitiveAppend | encoder.go:165-173 | the same literal, appended to a slice, adds exactly that value at the end |
| Encoding.IntPut | encoder.go:170-171 | a signed integer's decimal text is read back as the same value when it fits the width |
| Encoding.UintPut | encoder.go:172-173 | an unsigned integer's decimal text is read back as the same value when it fits the width |
| Encoding.FieldRoundTrip | encoder.go:57-89 | a plain or non-nil pointer primitive field encodes to `key = literal`, which assignPrimitiveNode and the whole field write of assign read back as the same value with no error |
| Encoding.SliceRoundTrip | encoder.go:92-125 | a slice of strings, bools or integers encodes to elements that the decoder's element loop appends back, all of them, in order, with no error; the field write of assign into a slice appends them after its existing elements |

## Left out

- Floating point: `strconv.ParseFloat` and `strconv.FormatFloat` are parameters (`parseFloat`, `formatFloat`), and no round trip is claimed for floats.
- `os.Getenv` is a parameter (`getenv`).
- The text of error messages, the `line(..) pos(..)` suffix, and the decoder's `d.line`/`d.pos` bookkeeping. Errors are datatype values; parser errors keep the peek token's line and position.
- Reflection itself:
  - addressability;
  - pointer identity and aliasing between record values;
  - `reflect.New` allocation, modelled as a zero value.
  - The model passes values and writes them back, so it does not capture two handles to one value.
- The map branch of `assign` (decoder.go:130-157) writes through a nil map and type-asserts keys. The model accepts an empty MapNode and gives `Panic` for a non-empty one.
- `log.Print` calls.
- Go map iteration order: MapNode entries and map values are sequences in one iteration order.
- `parseNode` is not part of this model's sources. `Parsing.Parser.ParseNode` is a dispatch of the model's own:
  - a comment gives nil;
  - `IDENT =` gives an assignment;
  - an IDENT followed by a parameter or `{` gives a block;
  - anything else gives an expression.
- Renderers for `NumberNode`, `SliceNode`, `EnvarNode` and `CollectionNode` are not part of this model's sources. `Syntax.String` gives them simple renderings about which nothing is claimed.
- Rendering `Nil` or `NilAssign` panics in Go; the model renders "".
- The nested `env(env(...))` case of `parseIdentifier` panics on its `.(*Identifier)` assertion. The model records a `NestedEnv` error and gives nil.
- The entry loop of `parseMapBody` (parser_impl.go:62-87) is unreachable from lexer tokens, because the lexer never produces COLON. The model proves it dead rather than modelling it.
- `multiReadChar` and `readBlockComment` are never called by `NextToken` and are not modelled.
- `registerPrefixParser`, `registerInfixParser`, `peekTokenIs`, `curTokenIs` and `Errors` are inlined as field reads and table membership.
- The older duplicate parser, AST, marshal and unmarshal files and the `icl.go` facade are not part of this model.
- Excess block parameters: after the `.param` slots are used up, the lookup returns the next tagged field. Nothing is claimed about that case.
- Go's `int` and `uint` are taken as 64 bits wide.
- Encoding.BuildStruct: its own contract pins the body by its length only. `StructMatchesEncode` states the body's content, because a lemma cannot be called inside the recursion of the node builders.
- Encoding.BuildFields: the same holds; `BodyMatchesEncode` states the content of its parameters and body.
- Decoding.Decoder.DecodeNode: a block's step states what changes (one field, a slice by at most one element) and which errors get out. What the block writes into that field is stated one level down, by `Decoding.Decoder.Block` and `BlockRun`, because the step predicate would otherwise have to be recursive over the nested blocks.

# fluent.js runtime parser, lexer and serializer in Dafny

This project models three pieces of fluent.js, the JavaScript implementation
of Project Fluent's FTL localization format:

- **`RuntimeParser`** (`fluent/src/parser.js`). This is the fast parser used at run time. It
  turns an FTL source string into a map from message identifiers to compact
  entries: a bare string, or an object with an optional value and optional
  attributes. It does this by trying `getMessage` at every line that looks
  like the start of a message and skipping any message that throws.
- **The entry lexer** (`fluent/src/lexer.js`). `messageOffsets` yields the start of
  every line that matches the message-start regular expression. `lexEntry`
  cuts an entry into tokens: at each position, the first token regular
  expression in declaration order that matches wins.
- **`FluentSerializer`** (`fluent-syntax/src/serializer.js`). This prints a
  syntax tree (resource, entries, messages, patterns, placeables, select
  expressions, call arguments) back to FTL text. It indents continuation
  lines, separates comments with blank lines and leaves out junk unless
  asked to keep it.

The modules are listed below with what each one holds.

- `Text`: character classes and the JavaScript string operations the code
  relies on (`indexOf`, `lastIndexOf`, `split`/`join`, `replace` of one
  character).
- `EntryOffsets`: the message-start scan that the parser and the lexer
  share.
- `RuntimeAst` and `RuntimeGrammar`: the parser as pure functions. Each
  `RuntimeParser` method has a function that takes the source and a start
  index and returns `Ok(value, next)` or `Fail(error, at)`. `at` is the index
  held by the parser at the moment of the `throw`.
- `RuntimeParserClass`: the `RuntimeParser` class, with the fields
  `source`, `index` and `entries`. Each method's loops are written out, and
  each method is proved to leave `index` and `entries` exactly where its
  grammar function says.
- `RuntimeProperties`: what the grammar promises, proved over all inputs.
- `Lexer` and `LexerProperties`: the token matchers, the lexing loop as a
  method, and the properties of both.
- `SyntaxAst`, `Serializer` and `SerializerProperties`: the syntax tree, the
  printers (as functions, with the list-building methods and the
  `FluentSerializer` class proved equal to them), and their properties.

A `throw` inside the code becomes a failure value that is passed upward with
`:-`. A `try`/`catch` becomes a `match` on that value. Generators become
functions that return sequences.

Where the code and the format's documented intent differ, the model follows
the code:

- Numbers in the runtime parser need a decimal part. Its `numberRe` has no
  `?` after the group, so `1` is not a number: `GetNumber("1", 0)` fails.
- The runtime parser's `externalRe` starts with `$` (end of input) instead of
  `\$`. It demands a letter after the end of the input, so it never
  matches, and `getLiteral` never yields an external argument.
- `stringRe` (`"\.*"`) accepts only strings made of dots, so the only string
  literals in a selector position are runs of `.` characters.
- `getResource` never appends to its error list. It always returns an empty
  list, and a malformed message is dropped silently.
- `getVariants` does not demand exactly one default variant. The default
  index is the position of the last `*` variant, and it is absent when no
  variant has a `*`.
- `getVariantName` trims trailing spaces from the key and leaves the index
  on the first of them. `getVariantKey` then finds a space instead of `]`
  and throws.
- After an attribute name or a variant key in a selector expression,
  `getSelectorExpression` advances one character without looking at it.
- In the lexer, `IDENTIFIER` never produces a token, because `ENTRY_START`
  comes first and matches every input that `IDENTIFIER` matches.

## Model

| member | source | states |
|---|---|---|
| EntryOffsets.OffsetsSound | fluent/src/parser.js:58-74 | every offset of the scan is below the source length, begins a line and matches the message-start expression; the offsets strictly increase |
| EntryOffsets.OffsetsComplete | fluent/src/parser.js:58-74 | every line start at or after the scan position where the message-start expression matches is yielded |
| EntryOffsets.MessageOffsetsCharacterized | fluent/src/lexer.js:5-21 | a position is an offset exactly when it is a line start inside the source where a message may begin, and the offsets come in increasing order |
| EntryOffsets.ScanStep | fluent/src/parser.js:62-72 | one turn of the scan: the current offset is yielded when the expression matches, and the scan ends at the last line or moves to the index after the next newline |
| RuntimeParserClass.RuntimeParser.GetResource | fluent/src/parser.js:38-56 | the cursor and the entries are reset, and the entries map the parser is left holding, and the returned pair, are those the grammar's getResource gives for the source |
| RuntimeParserClass.RuntimeParser.constructor | fluent/src/parser.js:39-42 | the parser holds the given source, with the cursor at 0 and no entries |
| RuntimeParserClass.RuntimeParser.MessageStartingPositions | fluent/src/parser.js:58-74 | the loop yields exactly the message-start offsets of the source |
| RuntimeParserClass.RuntimeParser.GetMessage | fluent/src/parser.js:82-118 | on success the entries gain (or overwrite) the parsed identifier with the stored entry; on a throw the entries are unchanged and the index is where the throw happened |
| RuntimeParserClass.RuntimeParser.StoreMessage | fluent/src/parser.js:95-117 | after the value, the attributes are read when a `.` follows, and the entry is stored as a bare string, as an object, or not at all with the throw for neither value nor attributes, as the grammar's message end gives |
| RuntimeParserClass.RuntimeParser.SkipIndent | fluent/src/parser.js:125-140 | the index moves to the end of the indentation match (or stays) and the returned character is the one at the new index |
| RuntimeParserClass.RuntimeParser.SkipInlineWS | fluent/src/parser.js:147-152 | the index moves past the run of spaces and tabs |
| RuntimeParserClass.RuntimeParser.GetIdentifier | fluent/src/parser.js:160-171 | result and final index agree with the grammar's identifier rule, including the throw |
| RuntimeParserClass.RuntimeParser.GetVariantName | fluent/src/parser.js:179-211 | result and final index agree with the grammar's keyword rule |
| RuntimeParserClass.RuntimeParser.GetString | fluent/src/parser.js:219-235 | result and final index agree with the grammar's string rule, including the unterminated-string throw |
| RuntimeParserClass.RuntimeParser.GetNumber | fluent/src/parser.js:595-609 | result and final index agree with the grammar's number rule |
| RuntimeParserClass.RuntimeParser.GetLiteral | fluent/src/parser.js:728-756 | result and final index agree with the grammar's literal rule and its order of tests |
| RuntimeParserClass.RuntimeParser.GetVariantKey | fluent/src/parser.js:702-720 | result and final index agree with the grammar's variant-key rule |
| RuntimeParserClass.RuntimeParser.GetPattern | fluent/src/parser.js:245-284 | result and final index agree with the grammar's pattern rule (one-line fast path or complex pattern) |
| RuntimeParserClass.RuntimeParser.GetComplexPattern | fluent/src/parser.js:296-374 | the character loop leaves the result and index the grammar's complex-pattern rule gives |
| RuntimeParserClass.RuntimeParser.BlankLines | fluent/src/parser.js:309-329 | the newline block either ends the loop with the finished pattern or continues the grammar's loop step with the normalised buffer |
| RuntimeParserClass.RuntimeParser.Placeable | fluent/src/parser.js:331-348 | the placeable block fails as the grammar's brace step does, or continues the loop after the placeable with one more placeable counted |
| RuntimeParserClass.RuntimeParser.TextChar | fluent/src/parser.js:350-362 | a backslash before a quote, a brace or a backslash yields the escaped character and skips both; any other character is added as it is; the loop then goes on as the grammar's text step, from a later index |
| RuntimeParserClass.RuntimeParser.GetPlaceable | fluent/src/parser.js:384-463 | result and final index agree with the grammar's placeable rule |
| RuntimeParserClass.RuntimeParser.SelectorPlaceable | fluent/src/parser.js:402-463 | from the rewound start: the selector expression after inline whitespace, the indent after it, and what follows, as the grammar gives them |
| RuntimeParserClass.RuntimeParser.GetSelect | fluent/src/parser.js:392-399 | the variant list read and the select expression built from it, including the throw for a selector with no variants, agree with the grammar |
| RuntimeParserClass.RuntimeParser.SelectorTail | fluent/src/parser.js:408-462 | after a selector, the checks for `}` and `->` and the variant list agree with the grammar's selector-placeable rule |
| RuntimeParserClass.RuntimeParser.GetSelectorExpression | fluent/src/parser.js:471-518 | result and final index agree with the grammar's selector-expression rule |
| RuntimeParserClass.RuntimeParser.ReferenceTail | fluent/src/parser.js:478-517 | after a message reference: an attribute, a variant reference, a call with its arguments, or the reference itself, with the index the grammar gives |
| RuntimeParserClass.RuntimeParser.GetCallArgs | fluent/src/parser.js:526-587 | the argument loop gives the grammar's argument list or throw |
| RuntimeParserClass.RuntimeParser.CallArg | fluent/src/parser.js:529-584 | one turn of the argument loop either ends it with the grammar's result or throw, or reads an argument and a `,` and leaves the grammar's loop to go on from a later index |
| RuntimeParserClass.RuntimeParser.ArgTail | fluent/src/parser.js:539-583 | after an argument's first expression: the argument, then `)` ending the list, `,` continuing it from a later index, or the throw |
| RuntimeParserClass.RuntimeParser.GetArgument | fluent/src/parser.js:536-573 | one argument, named or positional, including the rewind to the `:` before the throw |
| RuntimeParserClass.RuntimeParser.GetAttributes | fluent/src/parser.js:617-649 | the attribute loop gives the grammar's attribute map or throw |
| RuntimeParserClass.RuntimeParser.GetAttribute | fluent/src/parser.js:621-645 | one `.key = pattern` attribute, or the throw for a missing `=` |
| RuntimeParserClass.RuntimeParser.GetVariants | fluent/src/parser.js:657-694 | the variant loop gives the grammar's variant list with its default index, or throw |
| RuntimeParserClass.RuntimeParser.NextVariant | fluent/src/parser.js:669-690 | one turn of the variant loop either throws as the grammar does or appends the variant, sets the default index for `*`, and leaves the grammar's loop to go on from a later index |
| RuntimeParserClass.RuntimeParser.GetVariant | fluent/src/parser.js:667-690 | one variant from its `[`: its key and value (the `*` before it is read by NextVariant) |
| RuntimeGrammar.SkipInlineWS | fluent/src/parser.js:147-152 | the index never moves back and stays inside the source |
| RuntimeGrammar.IndentReEnd | fluent/src/parser.js:8 | a match of the indentation expression covers at least a newline and one marker character |
| RuntimeGrammar.SkipIndent | fluent/src/parser.js:125-140 | the index never moves back; from a newline it either stays on that newline or moves forward (where it lands is stated by SkipIndentSpec) |
| RuntimeGrammar.IdentifierEnd | fluent/src/parser.js:10 | a match of the identifier expression is non-empty and inside the source |
| RuntimeGrammar.GetIdentifier | fluent/src/parser.js:160-171 | success consumes at least one character; the throw leaves the index one past the start |
| RuntimeGrammar.TrimSpaces | fluent/src/parser.js:200-206 | the trimmed end is not after the untrimmed one, everything it trims is a space, and the character before it is not a space |
| RuntimeGrammar.TrimSpacesRun | fluent/src/parser.js:200-206 | all characters between the trimmed and the untrimmed end are spaces |
| RuntimeGrammar.GetVariantName | fluent/src/parser.js:179-211 | success is a keyword key, and the only throw is the expected-keyword error at the start index |
| RuntimeGrammar.StringStop | fluent/src/parser.js:222-232 | the scan for the end of a string stops at a quote or a line end, or at the end of the source |
| RuntimeGrammar.GetString | fluent/src/parser.js:219-235 | success is a string literal that consumes input; the throw is past the opening quote |
| RuntimeGrammar.NumberEnd | fluent/src/parser.js:12 | a number match is non-empty and inside the source |
| RuntimeGrammar.GetNumber | fluent/src/parser.js:595-609 | success is a number literal that consumes input, and the only throw is the expected-number error at the start |
| RuntimeGrammar.GetLiteral | fluent/src/parser.js:728-756 | success consumes input and never throws before the start |
| RuntimeGrammar.GetVariantKey | fluent/src/parser.js:702-720 | success consumes input |
| RuntimeGrammar.GetPattern | fluent/src/parser.js:245-284 | the index never moves back, on success or at a throw |
| RuntimeGrammar.GetComplexPattern | fluent/src/parser.js:296-374 | the index never moves back, on success or at a throw |
| RuntimeGrammar.ComplexLoop | fluent/src/parser.js:302-363 | the index never moves back through the character loop |
| RuntimeGrammar.ComplexStep | fluent/src/parser.js:331-362 | the index never moves back through the placeable, escape and text branches |
| RuntimeGrammar.BraceStep | fluent/src/parser.js:331-348 | the index never moves back through a placeable |
| RuntimeGrammar.TextStep | fluent/src/parser.js:350-362 | the index never moves back through an escape or a plain character |
| RuntimeGrammar.AfterPlaceable | fluent/src/parser.js:341-347 | the index never moves back after the placeable's closing brace |
| RuntimeGrammar.GetPlaceable | fluent/src/parser.js:384-463 | a placeable always moves the index forward, on success and at a throw |
| RuntimeGrammar.SelectorPlaceable | fluent/src/parser.js:408-462 | the index never moves back after the selector |
| RuntimeGrammar.SelectOf | fluent/src/parser.js:451-462 | a select expression exists only when the variant list parsed, and ends where that list ends |
| RuntimeGrammar.VariantsLoop | fluent/src/parser.js:657-694 | the index never moves back through the variant loop |
| RuntimeGrammar.VariantTurn | fluent/src/parser.js:669-690 | one turn of the variant loop moves the index forward on success and never back at a throw |
| RuntimeGrammar.GetVariant | fluent/src/parser.js:667-690 | a variant consumes input |
| RuntimeGrammar.GetSelectorExpression | fluent/src/parser.js:471-518 | a selector expression consumes input |
| RuntimeGrammar.ReferenceTail | fluent/src/parser.js:478-517 | the index never moves back after the reference |
| RuntimeGrammar.CallArgsLoop | fluent/src/parser.js:526-587 | the index never moves back through the argument loop |
| RuntimeGrammar.ArgTail | fluent/src/parser.js:539-583 | the index never moves back after the argument's first expression |
| RuntimeGrammar.NamedOrPositional | fluent/src/parser.js:536-573 | the index never moves back; a throw lies past the argument's start |
| RuntimeGrammar.AttributesLoop | fluent/src/parser.js:617-649 | the index never moves back through the attribute loop |
| RuntimeGrammar.GetAttribute | fluent/src/parser.js:621-645 | an attribute consumes input |
| RuntimeAst.CountPlaces | fluent/src/parser.js:336-346 | the count of placeables in a content list is at most its length |
| RuntimeProperties.SkipInlineWSSpec | fluent/src/parser.js:147-152 | skips exactly the maximal run of spaces and tabs, and is idempotent |
| RuntimeProperties.SkipIndentSpec | fluent/src/parser.js:125-140 | lands on a character that is not a space or tab: where skipInlineWS lands when that is not a line feed; on a line feed, there when the run of line feeds is not followed by one of `[ \t*[.{}]`, and otherwise where skipInlineWS lands from that mark |
| RuntimeProperties.GetIdentifierSpec | fluent/src/parser.js:160-171 | succeeds iff a letter, or `-` and a letter, starts at the index; the value is the source slice of the maximal identifier |
| RuntimeProperties.GetVariantNameSpec | fluent/src/parser.js:179-211 | succeeds iff a letter, `_` or space starts the key; the name is the keyword run with its trailing spaces trimmed, and the index is left on the first trimmed space |
| RuntimeProperties.KeywordWithTrailingSpaceRejected | fluent/src/parser.js:200-211 | a keyword whose trailing spaces were trimmed makes getVariantKey throw the missing-`]` error at the first of them |
| RuntimeProperties.GetNumberSpec | fluent/src/parser.js:595-609 | a number is the source slice `-?digits.digits` with a non-empty fraction, and no digit follows it |
| RuntimeProperties.GetNumberAccepts | fluent/src/parser.js:595-609 | conversely, an optional `-`, digits, a dot and a digit at the index are read as the number ending after the fraction's digits |
| RuntimeProperties.IntegerIsNotANumber | fluent/src/parser.js:12 | `1` is refused as a number and as a variant key |
| RuntimeProperties.StringStopOverDots | fluent/src/parser.js:13 | the string scan runs over a run of dots closed by a quote |
| RuntimeProperties.GetLiteralSpec | fluent/src/parser.js:728-756 | a literal is never an external argument; a string literal holds only dots and spans its contents plus two quotes; conversely, a quote, dots and a quote at the index are read as that string |
| RuntimeProperties.FinishShape | fluent/src/parser.js:365-373 | the end of the loop returns null, a bare string or a content list with no empty strings and no two adjacent strings |
| RuntimeProperties.PushPlaceableShape | fluent/src/parser.js:333-341 | flushing the buffer and pushing a placeable keeps the content-list invariant with one more placeable |
| RuntimeProperties.ComplexLoopShape | fluent/src/parser.js:302-373 | every pattern the loop returns has the non-empty, non-adjacent string shape |
| RuntimeProperties.ComplexStepShape | fluent/src/parser.js:331-362 | each step of the loop keeps that shape |
| RuntimeProperties.BraceStepShape | fluent/src/parser.js:331-348 | the placeable step keeps that shape |
| RuntimeProperties.TextStepShape | fluent/src/parser.js:350-362 | the escape and text step keeps that shape |
| RuntimeProperties.GetComplexPatternShape | fluent/src/parser.js:296-374 | a complex pattern is null, a non-empty string or a well-formed content list |
| RuntimeProperties.GetPatternShape | fluent/src/parser.js:245-284 | every parsed pattern has that shape |
| RuntimeProperties.TooManyPlaceablesRefused | fluent/src/parser.js:336-339 | a brace after 100 placeables throws the too-many-placeables error at the brace |
| RuntimeProperties.EscapeSequences | fluent/src/parser.js:350-356 | a backslash before `"`, `{` or `\` adds only the escaped character; before anything else it is kept |
| RuntimeProperties.SelectorPlaceableSpec | fluent/src/parser.js:408-462 | success is the selector itself before `}` (unless a private attribute) or a select with a valid selector and variants; the selector-rejection throws happen iff `->` follows an invalid selector; the private-attribute throw happens iff such an attribute is closed by `}` |
| RuntimeProperties.GetPlaceableValid | fluent/src/parser.js:384-463 | every parsed placeable satisfies the selector and variant rules |
| RuntimeProperties.SelectorExpressionNotSelect | fluent/src/parser.js:471-518 | a selector expression is never itself a select expression |
| RuntimeProperties.VariantsLoopSpec | fluent/src/parser.js:657-694 | the variant read at each turn is appended in source order; the default index is the number of the last turn that starts with `*`, and the given one when no turn does; the loop stops where no variant starts |
| RuntimeProperties.TurnStep | fluent/src/parser.js:669-690 | proof step: what the loop promises after a turn extends to the run with that turn |
| RuntimeProperties.AppendStep | fluent/src/parser.js:669-690 | proof step: the variant read at a turn comes right after those already read |
| RuntimeProperties.DefaultStep | fluent/src/parser.js:671-674 | proof step: a `*` at a turn sets the default to that turn unless a later turn starts with `*` |
| RuntimeProperties.NamedOrPositionalSpec | fluent/src/parser.js:536-573 | a named argument comes from a reference followed by `:` and holds a string or number; a positional argument is the expression read |
| RuntimeProperties.NamedValueRefused | fluent/src/parser.js:545-568 | a named argument whose value is not a string or number throws with the index rewound to just past the last `:` |
| RuntimeProperties.StoreSpec | fluent/src/parser.js:101-117 | stores a bare string iff there are no attributes and the value is a string; throws iff there is neither value nor attributes; otherwise stores an object with exactly the value and attributes that exist |
| RuntimeProperties.GetMessageSpec | fluent/src/parser.js:82-118 | a stored message is keyed by the identifier read at the offset, and a stored attribute map is never empty |
| RuntimeProperties.AttributesLoopGrows | fluent/src/parser.js:617-649 | the attribute loop only adds keys, and adds at least one when it starts at a `.` |
| RuntimeProperties.Parses | fluent/src/parser.js:46-53 | one parse outcome per offset |
| RuntimeProperties.CollectIsGather | fluent/src/parser.js:46-53 | the entries loop is a left fold of the per-offset outcomes |
| RuntimeProperties.ParsesAt | fluent/src/parser.js:46-53 | proof step: the outcome at a position is getMessage at that offset |
| RuntimeProperties.GatherSpec | fluent/src/parser.js:46-53 | a key is in the fold iff some successful outcome names it, and its entry is that of the last one |
| RuntimeProperties.CollectSpec | fluent/src/parser.js:46-53 | a key is in the entries iff getMessage succeeds for it at some offset; the last such offset wins |
| RuntimeProperties.GetResourceSpec | fluent/src/parser.js:38-56 | the error list is empty, and a key is in the entries iff some message-start offset parses to it |
| Lexer.Rank | fluent/src/lexer.js:32-46 | each token has its position in the declaration order of the token table |
| Lexer.IdEnd | fluent/src/lexer.js:37-43 | an identifier match is non-empty and inside the source |
| Lexer.OneLineTail | fluent/src/lexer.js:37-38 | the `= value` tail of a one-line entry lies in order inside the source |
| Lexer.StartTail | fluent/src/lexer.js:40-41 | the `[ \t]*=?` tail of an entry start stays inside the source |
| Lexer.LastInlineSpace | fluent/src/lexer.js:34 | the backtracking point of the break-indent expression is an inline space in range, or absent |
| Lexer.StringClose | fluent/src/lexer.js:44 | the closing quote of a lazily matched string is a quote, or absent |
| Lexer.NumberEnd | fluent/src/lexer.js:45 | a number match is non-empty and inside the source |
| Lexer.Match | fluent/src/lexer.js:33-45 | a match of any token expression consumes input and stays inside the source |
| Lexer.MatchBreakIndent | fluent/src/lexer.js:34 | a break-indent match consumes input |
| Lexer.MatchOneLine | fluent/src/lexer.js:37-38 | a one-line match consumes input |
| Lexer.MatchStart | fluent/src/lexer.js:40-41 | an entry or attribute start match consumes input |
| Lexer.MatchString | fluent/src/lexer.js:44 | a string match consumes input |
| Lexer.FirstMatch | fluent/src/lexer.js:54-64 | the first matching token consumes input |
| Lexer.Lexemes | fluent/src/lexer.js:59-61 | one `{token, values}` record per match |
| Lexer.LexEntry | fluent/src/lexer.js:50-70 | the generator's loop yields exactly the lexemes of the lexing function, stopping when no token matches |
| Lexer.TryTokens | fluent/src/lexer.js:54-64 | the loop over the token table returns the first token that matches, in declaration order |
| Lexer.MessageOffsets | fluent/src/lexer.js:5-21 | the generator yields exactly the message-start offsets |
| LexerProperties.RankOfEntry | fluent/src/lexer.js:32-46 | the rank of the token at a position of the table is that position |
| LexerProperties.FirstMatchFrom | fluent/src/lexer.js:54-64 | the token found matches and no earlier token from the starting rank matches; none found means no token from the rank on matches |
| LexerProperties.FirstMatchWins | fluent/src/lexer.js:54-64 | the token found matches and every earlier one fails; no token found iff no token matches |
| LexerProperties.IdentifierShadowed | fluent/src/lexer.js:40-43 | the `IDENTIFIER` token is never produced |
| LexerProperties.LexTiles | fluent/src/lexer.js:50-70 | the lexemes cover the source contiguously from the start index, each at the end of the previous one |
| LexerProperties.IdEndSpec | fluent/src/lexer.js:37-43 | an identifier match is a maximal identifier; there is none iff no letter (or `-` and a letter) starts there |
| LexerProperties.ValuesShape | fluent/src/lexer.js:33-45 | whitespace and break tokens capture nothing, one-line tokens an identifier and a value free of whitespace and braces, start tokens and `IDENTIFIER` an identifier, and string and number tokens their text |
| LexerProperties.OneLineValue | fluent/src/lexer.js:37-38 | a one-line match captures an identifier and a non-empty value without whitespace or braces |
| LexerProperties.BreakIndentSpec | fluent/src/lexer.js:34 | a newline is a break-indent iff an inline space follows within the whitespace run; the match ends just after the last such space |
| LexerProperties.LastInlineSpaceIsLast | fluent/src/lexer.js:34 | no inline space lies after the backtracking point |
| LexerProperties.StringCloseSpec | fluent/src/lexer.js:44 | the lazy string stops at the first quote before any line end; with no close, every later quote comes after a line end |
| Serializer.Indent | fluent-syntax/src/serializer.js:3-5 | every newline is replaced by a newline and four spaces |
| Serializer.WithNewLine | fluent-syntax/src/serializer.js:7-12 | keeps exactly the text elements that contain a newline |
| Serializer.ContainNewLine | fluent-syntax/src/serializer.js:7-12 | true iff some text element contains a newline |
| Serializer.Gather | fluent-syntax/src/serializer.js:22-40 | the parts succeed iff every part does; otherwise the first failure in order is the error thrown |
| Serializer.GatherSnoc | fluent-syntax/src/serializer.js:22-40 | proof step: collecting one more part appends it, or stops on the first failure |
| Serializer.GatherFailureSticks | fluent-syntax/src/serializer.js:22-40 | after a failure, later parts do not change the outcome |
| Serializer.EntriesFailureSticks | fluent-syntax/src/serializer.js:27-37 | after a failing entry, later entries do not change the outcome |
| Serializer.CommentLines | fluent-syntax/src/serializer.js:75-94 | each line becomes the sigil, a space and the line, or the bare sigil when the line is empty |
| Serializer.ArgumentValueText | fluent-syntax/src/serializer.js:297-307 | fails, with the unknown-argument error, iff the value is neither a string nor a number |
| Serializer.ArgResults | fluent-syntax/src/serializer.js:273-278 | one printed argument per call argument, in order |
| Serializer.VariantResults | fluent-syntax/src/serializer.js:230-245 | one printed variant per variant, in order |
| Serializer.ElementResults | fluent-syntax/src/serializer.js:144-147 | one printed element per pattern element, in order |
| Serializer.AttributeResults | fluent-syntax/src/serializer.js:116-118 | one printed attribute per attribute, in order |
| Serializer.SerializeMessage | fluent-syntax/src/serializer.js:101-123 | the parts list gives the message text of the printing functions |
| Serializer.PushAttributes | fluent-syntax/src/serializer.js:116-118 | the attribute loop appends every printed attribute, or returns the first failure |
| Serializer.SerializeSelectExpression | fluent-syntax/src/serializer.js:230-245 | the parts list gives the select text of the printing functions |
| Serializer.PushVariants | fluent-syntax/src/serializer.js:237-240 | the variant loop appends every printed variant, or returns the first failure |
| Serializer.FluentSerializer.constructor | fluent-syntax/src/serializer.js:18-20 | the serializer keeps the `withJunk` option it is given |
| Serializer.FluentSerializer.Serialize | fluent-syntax/src/serializer.js:22-40 | the entry loop gives the resource text, threading the has-entries flag and leaving out junk unless `withJunk` is set |
| Serializer.FluentSerializer.SerializeEntry | fluent-syntax/src/serializer.js:42-67 | one entry's text, including the blank line before a comment once something was emitted and the unknown-entry error |
| SerializerProperties.PadLines | fluent-syntax/src/serializer.js:3-5 | each line gets the pad in front |
| SerializerProperties.JoinPadLines | fluent-syntax/src/serializer.js:3-5 | joining padded lines with newlines equals padding the first and joining with newline-and-pad |
| SerializerProperties.BreakIndent | fluent-syntax/src/serializer.js:3-5 | proof step: the newline and the pad read as one separator |
| SerializerProperties.IndentJoin | fluent-syntax/src/serializer.js:3-5 | joining with newline-and-pad is the first line followed by the others padded |
| SerializerProperties.PaddedFree | fluent-syntax/src/serializer.js:3-5 | padding lines adds no newline |
| SerializerProperties.IndentLines | fluent-syntax/src/serializer.js:3-5 | indenting keeps the first line and prefixes every later line with four spaces |
| SerializerProperties.IndentDeepens | fluent-syntax/src/serializer.js:3-5 | lines indented by n are indented by n + 4 afterwards |
| SerializerProperties.IndentIndents | fluent-syntax/src/serializer.js:3-5 | every line after the first is indented by four or more spaces |
| SerializerProperties.IndentFirstLine | fluent-syntax/src/serializer.js:3-5 | the first line is unchanged |
| SerializerProperties.IndentCounts | fluent-syntax/src/serializer.js:3-5 | the text grows by four characters per newline, and text without a newline is unchanged |
| SerializerProperties.LinesAfterNewline | fluent-syntax/src/serializer.js:101-142 | proof step: a leading newline adds an empty first line |
| SerializerProperties.LinesAfterText | fluent-syntax/src/serializer.js:101-142 | proof step: text without a newline joins the first line |
| SerializerProperties.UncommentLines | fluent-syntax/src/serializer.js:75-94 | removes the sigil prefix from each line |
| SerializerProperties.CommentRoundTrip | fluent-syntax/src/serializer.js:75-94 | the comment's lines are the prefixed content lines, and removing the prefixes gives the content back |
| SerializerProperties.CommentsRoundTrip | fluent-syntax/src/serializer.js:75-94 | the same for `#`, `##` and `###` comments |
| SerializerProperties.ValueForms | fluent-syntax/src/serializer.js:132-142 | a value starts with a newline and four spaces iff it is multiline, otherwise with a space, and later lines are indented |
| SerializerProperties.ValueShape | fluent-syntax/src/serializer.js:132-142 | a printed value starts on a new indented line iff some text element has a newline, otherwise after a space, and every continuation line is indented by four |
| SerializerProperties.StartsWithConcat | fluent-syntax/src/serializer.js:101-123 | proof step: a text starts with any of its prefixes |
| SerializerProperties.LineAfterBreak | fluent-syntax/src/serializer.js:125-130 | an opener on a fresh line followed by an indented value gives an empty line, the opener line, then lines indented by eight |
| SerializerProperties.Openers | fluent-syntax/src/serializer.js:125-130 | proof step: the attribute and variant openers are a newline followed by the indentation |
| SerializerProperties.AttributeShape | fluent-syntax/src/serializer.js:125-130 | an attribute is an empty line, then `    .name =`, then its value's lines indented by eight |
| SerializerProperties.AttributeOpens | fluent-syntax/src/serializer.js:125-130 | an attribute starts with a newline, four spaces, `.`, its name and ` =` |
| SerializerProperties.VariantShape | fluent-syntax/src/serializer.js:247-257 | a variant is an empty line, then its key line with `*` in column four iff it is the default and `[` in column five, then its value's lines indented by eight |
| SerializerProperties.KeyLineOf | fluent-syntax/src/serializer.js:247-257 | a line starting with either variant opener has the key-column layout |
| SerializerProperties.PlaceableSucceeds | fluent-syntax/src/serializer.js:166-184 | a placeable prints iff it holds no failing expression or argument |
| SerializerProperties.ExprSucceeds | fluent-syntax/src/serializer.js:186-208 | an expression prints iff it is not a nested placeable and all its parts print |
| SerializerProperties.ArgSucceeds | fluent-syntax/src/serializer.js:280-295 | an argument prints iff its expression or named value prints |
| SerializerProperties.PatternSucceeds | fluent-syntax/src/serializer.js:144-159 | a pattern, and a value, print iff every element prints |
| SerializerProperties.MessageSucceeds | fluent-syntax/src/serializer.js:101-123 | a message prints iff its value and all its attributes print |
| SerializerProperties.JoinPair | fluent-syntax/src/serializer.js:101-123 | proof step: joining two parts concatenates them |
| SerializerProperties.FramedJoin | fluent-syntax/src/serializer.js:101-123 | the joined parts begin with the joined head and end with the final newline |
| SerializerProperties.HeadJoin | fluent-syntax/src/serializer.js:101-109 | the head is the comment and a newline when present, then the identifier and ` =` |
| SerializerProperties.MessageShape | fluent-syntax/src/serializer.js:101-123 | a message starts with its comment (if any) and `id =`, and ends with a newline |
| SerializerProperties.EntrySucceeds | fluent-syntax/src/serializer.js:42-67 | an entry prints iff it is printable; an unknown entry throws the unknown-entry error with its type |
| SerializerProperties.AnyEmittedIff | fluent-syntax/src/serializer.js:27-37 | the has-entries flag is set iff some earlier entry was emitted |
| SerializerProperties.EntriesStep | fluent-syntax/src/serializer.js:27-37 | one more entry keeps success iff it is skipped or printable |
| SerializerProperties.EntriesSucceed | fluent-syntax/src/serializer.js:27-37 | the entry loop succeeds iff every emitted entry is printable |
| SerializerProperties.ResourceSucceeds | fluent-syntax/src/serializer.js:22-40 | a resource prints iff every entry it emits prints |
| SerializerProperties.CommentSeparated | fluent-syntax/src/serializer.js:47-60 | a standalone comment is preceded by a blank line iff something was already emitted, and is followed by a blank line |
| SerializerProperties.DropJunk | fluent-syntax/src/serializer.js:28-30 | the body with junk removed holds no junk |
| SerializerProperties.EntryPartsPrefix | fluent-syntax/src/serializer.js:27-37 | the printed prefix of a body depends only on that prefix |
| SerializerProperties.JunkOmittedPrefix | fluent-syntax/src/serializer.js:27-37 | skipping junk in a prefix prints the same as keeping the junk-free prefix |
| SerializerProperties.KeptEntryStep | fluent-syntax/src/serializer.js:27-37 | an entry that is not junk prints after the prefix the same way with and without `withJunk` |
| SerializerProperties.JunkOmitted | fluent-syntax/src/serializer.js:22-40 | without `withJunk`, a resource prints exactly as its body with the junk removed |
| SerializerProperties.VariantOpens | fluent-syntax/src/serializer.js:247-257 | a variant starts with a newline and `   *[key]` when default, `    [key]` otherwise |
| SerializerProperties.SelectShape | fluent-syntax/src/serializer.js:230-245 | a select ends with a newline; without a selector it starts with the first variant's newline, with one it starts with the selector and ` ->` |
| SerializerProperties.PlaceableShape | fluent-syntax/src/serializer.js:166-184 | a placeable is braced; a nested placeable is the inner text in one more pair of braces; a select closes on a new line, opens with `{ ` when it has a selector and on a new line iff it has none; other expressions are padded by one space inside the braces |
| SerializerProperties.CallShape | fluent-syntax/src/serializer.js:273-278 | a call starts with the callee's name and `(`, and ends with `)` |

## Left out

- Object key order, the `__proto__` key and other JavaScript object details.
  The entries and attribute maps are Dafny `map`s, which only capture the
  last-write-wins rule.
- UTF-16 code units. Characters are Dafny `char` values (Unicode scalar
  values), so a surrogate pair counts as one character where JavaScript
  counts two. JavaScript's `\s` and its line terminators are modelled by
  their full character lists.
- A parser object is built for one source. The constructor takes the
  string that getResource assigns to `_source` (parser.js:39-41), and
  calling getResource again on another string is modelled as a new
  parser.
- `SyntaxError` objects and their messages. Each `throw` is one
  `ParseError` constructor, and `error()` (parser.js:765-767) is that
  constructor.
- The default `parse` export (parser.js:778-781). It is the constructor
  followed by `GetResource`.
- The resource-type check at the top of `serialize` (serializer.js:23-25).
  The `Resource` datatype rules out any other value.
- The `serializeExpression` method forwarder (serializer.js:69-71). It calls
  the expression printer, `Serializer.ExprText`, directly.
- Unknown element, variant-key, call-argument and expression node types in
  the syntax tree. The datatypes leave no room for them, so the throw for an
  expression of an unknown type inside a placeable (serializer.js:180-181
  and 204-205) is not modelled. `NestedPlaceable` is the `Placeable` node
  standing as an expression: `serializePlaceable` prints it in one more pair
  of braces, and `serializeExpression` rejects it. An unknown entry type is
  modelled as `UnknownEntry`.
- The `HAS_ENTRIES` bit mask (serializer.js:15). It is a boolean.
- The default value of the constructor's `withJunk` option. It is a
  required constructor parameter.
- Lexer.LexEntry: the default `index = 0` of `lexEntry` (lexer.js:50) is
  not modelled; the start index is a required parameter.
- Serializer.FluentSerializer.SerializeEntry: the default `state = 0` of
  `serializeEntry` (serializer.js:42) is not modelled; the state is a
  required parameter.
- The small identifier and key printers (serializer.js:309-333). They are
  inlined into the printers that call them.
- The regular expressions. Each one is a hand-written matcher over the
  string, covering exactly the syntax the code uses.
- The generators in `fluent/src/lexer.js`. They are loops that collect what
  the generator would yield.
- The resolver, the message context, the syntax-tree parser, the debug
  lexer, the benchmark and regex tools, the test files and the React
  bindings (`fluent-enzyme`). They are not part of this model.
- Serializer.SerializeMessage, Serializer.SerializeSelectExpression,
  Serializer.FluentSerializer.Serialize and
  Serializer.FluentSerializer.SerializeEntry: each is proved equal to a
  printing function. The properties of the output are proved in
  `SerializerProperties` about those functions, not repeated in the
  methods' contracts.

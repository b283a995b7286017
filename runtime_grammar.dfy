// What each method of `RuntimeParser` (fluent/src/parser.js) computes, as a
// function of the source and the index it starts at. The methods of the
// class in runtime_parser.dfy are proved to agree with these functions; the
// properties of the parser are proved about them in runtime_properties.dfy.

module RuntimeGrammar {
  import opened Text
  import opened RuntimeAst
  import EntryOffsets

  /** MAX_PLACEABLES (parser.js:3) */
  const MAX_PLACEABLES: nat := 100

  /** The termination measure of the pattern/placeable recursion: positions
      past the end all weigh 0, so any step forward from inside the source
      decreases it. */
  function D(s: string, i: nat): nat {
    if i <= |s| then |s| - i + 1 else 0
  }

  // ---------------------------------------------------------------- scanning

  /** skipInlineWS: `inlineWhitespaceRe` (`/[ \t]+/y`) moves the index to the
      end of the run of spaces and tabs, if there is one. */
  function SkipInlineWS(s: string, i: nat): (j: nat)
    ensures i <= j
    ensures i <= |s| ==> j <= |s|
  {
    Span(s, i, InlineSpace)
  }

  /** Characters allowed right after the line feeds of `indentRe`. */
  predicate IsIndentMark(c: char) {
    c == ' ' || c == '\t' || c == '*' || c == '[' || c == '.' || c == '{' || c == '}'
  }

  /** `indentRe` (`/\n+[ \t*[.{}]/y`) at `i`: one or more line feeds and one
      mark character; the result is `lastIndex`, just past the mark. */
  function IndentReEnd(s: string, i: nat): (r: Option<nat>)
    ensures r.Some? ==> i + 2 <= r.value <= |s|
  {
    if Is(s, i, '\n') then
      var n := Span(s, i, Newline);
      if n < |s| && IsIndentMark(s[n]) then Some(n + 1) else None
    else None
  }

  /** skipIndent: inline whitespace, then, at a line feed, the run of line
      feeds and the indentation of the next line when `indentRe` matches. */
  function SkipIndent(s: string, i: nat): (j: nat)
    ensures i <= j
    ensures i <= |s| ==> j <= |s|
    ensures Is(s, i, '\n') ==> (j == i && Is(s, j, '\n')) || j > i
  {
    var j := SkipInlineWS(s, i);
    if !Is(s, j, '\n') then j
    else match IndentReEnd(s, j)
      case Some(e) => SkipInlineWS(s, e - 1)
      case None => j
  }

  /** The end of an `identifierRe` (`-?[a-zA-Z][a-zA-Z0-9_-]*`, sticky) match at
      `i`, if there is one. */
  function IdentifierEnd(s: string, i: nat): (r: Option<nat>)
    ensures r.Some? ==> i < r.value <= |s|
  {
    if Is(s, i, '-') && i + 1 < |s| && IsAsciiLetter(s[i + 1]) then Some(Span(s, i + 2, IdentChar))
    else if i < |s| && IsAsciiLetter(s[i]) then Some(Span(s, i + 1, IdentChar))
    else None
  }

  /** getIdentifier: the identifier at the index, or a throw after moving the
      index one character on. */
  function GetIdentifier(s: string, i: nat): (r: Outcome<string>)
    ensures r.Ok? ==> i < r.next <= |s|
    ensures r.Fail? ==> r == Fail(ExpectedIdentifier, i + 1)
  {
    match IdentifierEnd(s, i)
    case None => Fail(ExpectedIdentifier, i + 1)
    case Some(e) => Ok(Slice(s, i, e), e)
  }

  /** getVariantName's backtracking loop: step back over spaces
      (`charCodeAt(index - 1) === 32`). */
  function TrimSpaces(s: string, j: nat): (k: nat)
    ensures k <= j
    ensures k < j ==> k < |s| && s[k] == ' '
    ensures k == 0 || !(k - 1 < |s| && s[k - 1] == ' ')
  {
    if 0 < j && j - 1 < |s| && s[j - 1] == ' ' then TrimSpaces(s, j - 1) else j
  }

  /** The spaces getVariantName gives back are all spaces. */
  lemma {:induction false} TrimSpacesRun(s: string, j: nat)
    ensures forall p :: TrimSpaces(s, j) <= p < j ==> p < |s| && s[p] == ' '
  {
    if 0 < j && j - 1 < |s| && s[j - 1] == ' ' {
      TrimSpacesRun(s, j - 1);
    }
  }

  /** getVariantName: a first character in [a-zA-Z_ ], a run of
      [a-zA-Z0-9_- ], then trailing spaces given back. */
  function GetVariantName(s: string, i: nat): (r: Outcome<VariantKey>)
    ensures r.Ok? ==> r.value.KeyName?
    ensures r.Ok? && r.next < i ==> Is(s, i - 1, ' ')
    ensures r.Fail? ==> r == Fail(ExpectedKeyword, i)
  {
    if i < |s| && (IsAsciiLetter(s[i]) || s[i] == '_' || s[i] == ' ') then
      var j := Span(s, i + 1, VariantNameChar);
      var k := TrimSpaces(s, j);
      TrimSpacesRun(s, j);
      Ok(KeyName(Slice(s, i, k)), k)
    else Fail(ExpectedKeyword, i)
  }

  predicate IsStringStop(c: char) {
    c == '"' || c == '\n'
  }

  /** getString's loop: the first quote or line feed from `p` on, or where
      `++index < length` stops it. */
  function StringStop(s: string, p: nat): (q: nat)
    decreases |s| - p
    ensures p <= q
    ensures p <= |s| ==> q <= |s|
    ensures q < |s| ==> IsStringStop(s[q])
  {
    if p < |s| && !IsStringStop(s[p]) then StringStop(s, p + 1) else p
  }

  /** getString, entered with the index on the opening quote. */
  function GetString(s: string, i: nat): (r: Outcome<Expr>)
    ensures r.Ok? ==> r.value.Str? && r.next > i
    ensures r.Fail? ==> r.at > i
  {
    var q := StringStop(s, i + 1);
    if Is(s, q, '\n') then Fail(UnterminatedString, q)
    else Ok(Str(Slice(s, i + 1, q)), q + 1)
  }

  /** The end of a `numberRe` (`/-?[0-9]+(\.[0-9]+)/y`) match at `i`: the
      decimal part is required. */
  function NumberEnd(s: string, i: nat): (r: Option<nat>)
    ensures r.Some? ==> i < r.value <= |s|
  {
    var d := if Is(s, i, '-') then i + 1 else i;
    if d < |s| && IsDigit(s[d]) then
      var e := Span(s, d, Digit);
      if Is(s, e, '.') && e + 1 < |s| && IsDigit(s[e + 1]) then Some(Span(s, e + 1, Digit)) else None
    else None
  }

  /** getNumber */
  function GetNumber(s: string, i: nat): (r: Outcome<Expr>)
    ensures r.Ok? ==> r.value.Num? && i < r.next <= |s|
    ensures r.Fail? ==> r == Fail(ExpectedNumber, i)
  {
    match NumberEnd(s, i)
    case None => Fail(ExpectedNumber, i)
    case Some(e) => Ok(Num(Slice(s, i, e)), e)
  }

  /** `stringRe` (`/"\.*"/y`): a quote, literal dots only, a quote. */
  predicate StringReMatches(s: string, i: nat) {
    Is(s, i, '"') && Is(s, Span(s, i + 1, Dot), '"')
  }

  /** `externalRe` (`$[a-zA-Z][a-zA-Z0-9_-]*`, sticky): the unescaped `$` asserts
      the end of the input, after which a letter is required. */
  predicate ExternalReMatches(s: string, i: nat) {
    i == |s| && LetterAt(s, i)
  }

  predicate LetterAt(s: string, i: nat) {
    i < |s| && IsAsciiLetter(s[i])
  }

  /** getLiteral: the regexes are tried in the order external, identifier,
      number, string. */
  function GetLiteral(s: string, i: nat): (r: Outcome<Expr>)
    ensures r.Ok? ==> i < |s| && i < r.next
    ensures r.Fail? ==> r.at >= i
  {
    if ExternalReMatches(s, i) then
      match GetIdentifier(s, i)
      case Ok(name, j) => Ok(Ext(name), j)
      case Fail(e, at) => Fail(e, at)
    else if IdentifierEnd(s, i).Some? then
      var id :- GetIdentifier(s, i);
      Ok(Ref(id.0), id.1)
    else if NumberEnd(s, i).Some? then GetNumber(s, i)
    else if StringReMatches(s, i) then GetString(s, i)
    else Fail(ExpectedLiteral, i)
  }

  /** getVariantKey: a number when the first character is a digit or `-`,
      a keyword otherwise, then a required `]`. */
  function GetVariantKey(s: string, i: nat): (r: Outcome<VariantKey>)
    ensures r.Ok? ==> i < r.next <= |s|
    ensures r.Fail? ==> r.at >= i || Is(s, i - 1, ' ')
  {
    if i < |s| && (IsDigit(s[i]) || s[i] == '-') then
      var n :- GetNumber(s, i);
      if Is(s, n.1, ']') then Ok(KeyNumber(n.0.val), n.1 + 1) else Fail(ExpectedCloseBracket, n.1)
    else
      var v :- GetVariantName(s, i);
      if Is(s, v.1, ']') then Ok(v.0, v.1 + 1) else Fail(ExpectedCloseBracket, v.1)
  }

  /** The blank-line normalisation of getComplexPattern, the global
      replacement of `\n[ \t]*` by a line feed: the inline whitespace after
      each line feed is dropped. */
  function NormalizeBreaks(t: string): (r: string) {
    NormalizeFrom(t, 0)
  }

  /** NormalizeBreaks on the suffix of `t` from `i` on. */
  function NormalizeFrom(t: string, i: nat): (r: string)
    decreases |t| - i
  {
    if i >= |t| then ""
    else if t[i] == '\n' then "\n" + NormalizeFrom(t, SkipInlineWS(t, i + 1))
    else [t[i]] + NormalizeFrom(t, i + 1)
  }

  /** The characters at which a continuation line ends a pattern. */
  predicate IsPatternEnd(c: char) {
    c == '.' || c == '}' || c == '*' || c == '[' || c == '\n'
  }

  /** The buffered text appended to `content` as a text run, if there is
      any. */
  function Flush(buf: string, content: seq<Element>): seq<Element> {
    if |buf| > 0 then content + [Text(buf)] else content
  }

  /** The tail of getComplexPattern, at the end of the loop. */
  function Finish(buf: string, content: seq<Element>): Option<Pattern> {
    if |content| == 0 then (if |buf| > 0 then Some(PStr(buf)) else None)
    else Some(PElems(Flush(buf, content)))
  }

  // ------------------------------------------------- patterns and placeables

  /** getPattern: the one-line fast path, or getComplexPattern from the start
      (the first line holds `{` or continues) or from the indented next line
      (the first line is empty). */
  function GetPattern(s: string, i: nat): (r: Outcome<Option<Pattern>>)
    requires i <= |s|
    decreases D(s, i), 9
    ensures r.Ok? ==> r.next >= i
    ensures r.Fail? ==> r.at >= i
  {
    var e := IndexOf(s, '\n', i);
    var eol: nat := if e == -1 then |s| else e;
    var first: Option<string> := if i != eol then Some(Slice(s, i, eol)) else None;
    if first.Some? && Includes(first.value, '{') then GetComplexPattern(s, i)
    else
      var j := SkipIndent(s, eol);
      if Is(s, j, '\n') || Is(s, j, '.') then
        Ok(if first.Some? then Some(PStr(first.value)) else None, j)
      else if first.Some? then GetComplexPattern(s, i)
      else GetComplexPattern(s, j)
  }

  /** getComplexPattern */
  function GetComplexPattern(s: string, i: nat): (r: Outcome<Option<Pattern>>)
    decreases D(s, i), 8
    ensures r.Ok? ==> r.next >= i
    ensures r.Fail? ==> r.at >= i
  {
    ComplexLoop(s, i, "", [], 0)
  }

  /** One turn of getComplexPattern's `while` loop with its `buffer`,
      `content` and `placeables`: a line feed either ends the pattern or is
      folded into the buffer with the continuation line's first character. */
  function ComplexLoop(s: string, i: nat, buf: string, content: seq<Element>, n: nat): (r: Outcome<Option<Pattern>>)
    decreases D(s, i), 7
    ensures r.Ok? ==> r.next >= i
    ensures r.Fail? ==> r.at >= i
  {
    if i >= |s| then Ok(Finish(buf, content), i)
    else if s[i] == '\n' then
      var j := SkipIndent(s, i);
      var c := At(s, j);
      if c.Some? && IsPatternEnd(c.value) then Ok(Finish(buf, content), j)
      else ComplexStep(s, j, c, buf + NormalizeBreaks(Slice(s, i, j - 1)), content, n)
    else ComplexStep(s, i, Some(s[i]), buf, content, n)
  }

  /** The rest of the loop body for the character `ch` at `i`: a placeable,
      or an escape or one character of text. */
  function ComplexStep(s: string, i: nat, ch: Option<char>, buf: string, content: seq<Element>, n: nat): (r: Outcome<Option<Pattern>>)
    requires i <= |s|
    decreases D(s, i), 6
    ensures r.Ok? ==> r.next >= i
    ensures r.Fail? ==> r.at >= i
  {
    if ch == Some('{') then BraceStep(s, i, buf, content, n)
    else TextStep(s, i, ch, buf, content, n)
  }

  /** A `{` at `i`: the buffered text is flushed, then the placeable is read
      unless the limit of placeables has been reached. */
  function BraceStep(s: string, i: nat, buf: string, content: seq<Element>, n: nat): (r: Outcome<Option<Pattern>>)
    requires i <= |s|
    decreases D(s, i), 5
    ensures r.Ok? ==> r.next >= i
    ensures r.Fail? ==> r.at >= i
  {
    if n > MAX_PLACEABLES - 1 then Fail(TooManyPlaceables, i)
    else AfterPlaceable(s, i, GetPlaceable(s, i), Flush(buf, content), n)
  }

  /** A character of text at `i`; a backslash before `"`, `{` or `\\` is
      dropped and the next character taken literally. */
  function TextStep(s: string, i: nat, ch: Option<char>, buf: string, content: seq<Element>, n: nat): (r: Outcome<Option<Pattern>>)
    requires i <= |s|
    decreases D(s, i), 5
    ensures r.Ok? ==> r.next >= i
    ensures r.Fail? ==> r.at >= i
  {
    var ch2 := At(s, i + 1);
    var escaped := ch == Some('\\') && (ch2 == Some('"') || ch2 == Some('{') || ch2 == Some('\\'));
    var ch' := if escaped then ch2 else ch;
    var i' := if escaped then i + 1 else i;
    ComplexLoop(s, i' + 1, if ch'.Some? then buf + [ch'.value] else buf, content, n)
  }

  /** The loop after the placeable opened at `i`: its expression is appended
      and the loop resumes past the closing brace. */
  function AfterPlaceable(s: string, i: nat, p: Outcome<Expr>, content: seq<Element>, n: nat): (r: Outcome<Option<Pattern>>)
    requires i <= |s|
    requires p.Ok? ==> p.next > i
    requires p.Fail? ==> p.at >= i
    decreases D(s, i), 4
    ensures r.Ok? ==> r.next >= i
    ensures r.Fail? ==> r.at >= i
  {
    match p
    case Fail(e, at) => Fail(e, at)
    case Ok(e, k) => ComplexLoop(s, k + 1, "", content + [Place(e)], n + 1)
  }

  /** getPlaceable, entered with the index on `{`: a variant list right
      after the brace, or a selector expression and what follows it. */
  function GetPlaceable(s: string, i: nat): (r: Outcome<Expr>)
    decreases D(s, i), 4
    ensures r.Ok? ==> r.next > i
    ensures r.Fail? ==> r.at > i
  {
    var j := SkipIndent(s, i + 1);
    if Is(s, j, '*') || (Is(s, j, '[') && !Is(s, j + 1, ']')) then
      SelectOf(None, VariantsLoop(s, j, [], None))
    else
      match GetSelectorExpression(s, SkipInlineWS(s, i + 1))
      case Fail(e, at) => Fail(e, at)
      case Ok(sel, k) => SelectorPlaceable(s, sel, SkipIndent(s, k))
  }

  /** The rest of getPlaceable once the selector expression `sel` has been
      read and the index skipped on to `m`: a closing brace, or `->` and the
      variants on the next line. */
  function SelectorPlaceable(s: string, sel: Expr, m: nat): (r: Outcome<Expr>)
    decreases D(s, m), 3
    ensures r.Ok? ==> r.next >= m
    ensures r.Fail? ==> r.at >= m
  {
    if Is(s, m, '}') then
      if sel.Attr? && |sel.id| > 0 && sel.id[0] == '-' then Fail(PrivateAttributeInterpolated, m)
      else Ok(sel, m)
    else if !(Is(s, m, '-') && Is(s, m + 1, '>')) then Fail(ExpectedBraceOrArrow, m)
    else if sel.Ref? then Fail(ReferenceAsSelector, m)
    else if sel.VariantRef? then Fail(VariantAsSelector, m)
    else if sel.Attr? && !(|sel.id| > 0 && sel.id[0] == '-') then Fail(PublicAttributeAsSelector, m)
    else
      var a := SkipInlineWS(s, m + 2);
      if !Is(s, a, '\n') then Fail(VariantsOnNewLine, a)
      else
        SelectOf(Some(sel), VariantsLoop(s, SkipIndent(s, a), [], None))
  }

  /** The select expression built from what getVariants returned; one with
      a selector needs at least one variant. */
  function SelectOf(sel: Option<Expr>, v: Outcome<(seq<Variant>, Option<nat>)>): (r: Outcome<Expr>)
    ensures r.Ok? ==> v.Ok? && r.next == v.next
    ensures r.Fail? ==> (v.Fail? && r.at == v.at) || (v.Ok? && r.at == v.next)
  {
    match v
    case Fail(e, at) => Fail(e, at)
    case Ok(p, k) =>
      if sel.Some? && |p.0| == 0 then Fail(ExpectedVariants, k)
      else Ok(Select(sel, p.0, p.1), k)
  }

  /** getVariants' loop with its `variants` and `defaultIndex`: a variant
      starts with `[` (not `[[`) or `*`; the last `*` sets the default. */
  function VariantsLoop(s: string, i: nat, vars: seq<Variant>, def: Option<nat>): (r: Outcome<(seq<Variant>, Option<nat>)>)
    decreases D(s, i), 3
    ensures r.Ok? ==> r.next >= i
    ensures r.Fail? ==> r.at >= i
  {
    if i >= |s| then Ok((vars, def), i)
    else if (s[i] != '[' || Is(s, i + 1, '[')) && s[i] != '*' then Ok((vars, def), i)
    else VariantTurn(s, i, vars, def)
  }

  /** One turn of getVariants' loop at the `[` or `*` of a variant: the
      variant is read and appended, and the loop goes on past the indent
      after it. */
  function VariantTurn(s: string, i: nat, vars: seq<Variant>, def: Option<nat>): (r: Outcome<(seq<Variant>, Option<nat>)>)
    requires i < |s|
    decreases D(s, i), 2
    ensures r.Ok? ==> r.next > i
    ensures r.Fail? ==> r.at >= i
  {
    var def' := if s[i] == '*' then Some(|vars|) else def;
    match GetVariant(s, if s[i] == '*' then i + 1 else i)
    case Fail(e, at) => Fail(e, at)
    case Ok(v, m) => VariantsLoop(s, SkipIndent(s, m), vars + [v], def')
  }

  /** One variant of getVariants' loop, from the `[` of its key: the key,
      then the pattern after inline whitespace. */
  function GetVariant(s: string, j: nat): (r: Outcome<Variant>)
    decreases D(s, j), 1
    ensures r.Ok? ==> r.next > j
    ensures r.Fail? ==> r.at >= j
  {
    if !Is(s, j, '[') then Fail(ExpectedOpenBracket, j)
    else
      match GetVariantKey(s, j + 1)
      case Fail(e, at) => Fail(e, at)
      case Ok(key, k) =>
        match GetPattern(s, SkipInlineWS(s, k))
        case Fail(e, at) => Fail(e, at)
        case Ok(val, m) => Ok(Variant(key, val), m)
  }

  /** getSelectorExpression: a literal, and after a reference an attribute
      (`.name`), a variant (`[key]`) or a call (`(args)`). After `.name` and
      `[key]` the index moves one more character on unconditionally. */
  function GetSelectorExpression(s: string, i: nat): (r: Outcome<Expr>)
    decreases D(s, i), 1
    ensures r.Ok? ==> r.next > i
    ensures r.Fail? ==> r.at >= i
  {
    match GetLiteral(s, i)
    case Fail(e, at) => Fail(e, at)
    case Ok(lit, j) =>
      if !lit.Ref? then Ok(lit, j)
      else ReferenceTail(s, lit.name, j)
  }

  /** What follows a message reference `name` in a selector expression that
      ended at `j`: `.name`, `[key]`, `(args)` or nothing. */
  function ReferenceTail(s: string, name: string, j: nat): (r: Outcome<Expr>)
    decreases D(s, j), 0
    ensures r.Ok? ==> r.next >= j
    ensures r.Fail? ==> r.at >= j
  {
    if Is(s, j, '.') then
      match GetIdentifier(s, j + 1)
      case Fail(e, at) => Fail(e, at)
      case Ok(attr, k) => Ok(Attr(name, attr), k + 1)
    else if Is(s, j, '[') then
      match GetVariantKey(s, j + 1)
      case Fail(e, at) => Fail(e, at)
      case Ok(key, k) => Ok(VariantRef(name, key), k + 1)
    else if Is(s, j, '(') then
      match CallArgsLoop(s, j + 1, [])
      case Fail(e, at) => Fail(e, at)
      case Ok(args, k) => Ok(Call(name, args), k + 1)
    else Ok(Ref(name), j)
  }

  /** getCallArgs' loop with its `args`: positional arguments, and
      `name: value` pairs whose value must be a string or a number. */
  function CallArgsLoop(s: string, i: nat, args: seq<Arg>): (r: Outcome<seq<Arg>>)
    decreases D(s, i), 4
    ensures r.Ok? ==> r.next >= i
    ensures r.Fail? ==> r.at >= i
  {
    if i >= |s| then Ok(args, i)
    else
      var j := SkipInlineWS(s, i);
      if Is(s, j, ')') then Ok(args, j)
      else
        match GetSelectorExpression(s, j)
        case Fail(e, at) => Fail(e, at)
        case Ok(exp, k) => ArgTail(s, args, exp, k)
  }

  /** The rest of one turn of getCallArgs' loop once the argument's first
      expression `exp` ended at `k`: the argument, then `)` to end the
      list or `,` before the next argument. */
  function ArgTail(s: string, args: seq<Arg>, exp: Expr, k: nat): (r: Outcome<seq<Arg>>)
    decreases D(s, k), 3
    ensures r.Ok? ==> r.next >= k
    ensures r.Fail? ==> r.at >= k
  {
    match NamedOrPositional(s, exp, k)
    case Fail(e, at) => Fail(e, at)
    case Ok(arg, k') =>
      var m := SkipInlineWS(s, k');
      if Is(s, m, ')') then Ok(args + [arg], m)
      else if Is(s, m, ',') then CallArgsLoop(s, m + 1, args + [arg])
      else Fail(ExpectedCommaOrParen, m)
  }

  /** The part of getCallArgs' loop after the first expression `exp` of an
      argument, which ended at `k`. */
  function NamedOrPositional(s: string, exp: Expr, k: nat): (r: Outcome<Arg>)
    decreases D(s, k), 2
    ensures r.Ok? ==> r.next >= k
    ensures r.Fail? ==> r.at > k
  {
    if !exp.Ref? then Ok(Positional(exp), k)
    else
      var k2 := SkipInlineWS(s, k);
      if Is(s, k2, ':') then
        match GetSelectorExpression(s, SkipInlineWS(s, k2 + 1))
        case Fail(e, at) => Fail(e, at)
        case Ok(val, m) =>
          if val.Str? || val.Num? then Ok(Named(exp.name, val), m)
          else
            LastIndexOfAtLeast(s, ':', m, k2);
            Fail(ExpectedStringOrNumber, LastIndexOf(s, ':', m) + 1)
      else Ok(Positional(exp), k2)
  }

  // ------------------------------------------------------ messages, resource

  /** getAttributes' loop with its `attrs` object: each `.` starts one more
      attribute, and a later one with the same key overwrites. */
  function AttributesLoop(s: string, i: nat, attrs: map<string, AttrValue>): (r: Outcome<map<string, AttrValue>>)
    decreases D(s, i)
    ensures r.Ok? ==> r.next >= i
    ensures r.Fail? ==> r.at >= i
  {
    if i >= |s| || s[i] != '.' then Ok(attrs, i)
    else
      match GetAttribute(s, i + 1)
      case Fail(e, at) => Fail(e, at)
      case Ok(a, k) => AttributesLoop(s, k, attrs[a.0 := a.1])
  }

  /** One attribute after its `.`: the key, `=`, and the pattern, stored as
      the bare string when it is one and as `{val}` otherwise. */
  function GetAttribute(s: string, i: nat): (r: Outcome<(string, AttrValue)>)
    ensures r.Ok? ==> r.next > i
    ensures r.Fail? ==> r.at >= i
  {
    match GetIdentifier(s, i)
    case Fail(e, at) => Fail(e, at)
    case Ok(key, k) =>
      var j := SkipInlineWS(s, k);
      if !Is(s, j, '=') then Fail(ExpectedEquals, j)
      else
        match GetPattern(s, SkipInlineWS(s, j + 1))
        case Fail(e, at) => Fail(e, at)
        case Ok(val, m) =>
          var stored := match val { case Some(PStr(t)) => AttrStr(t) case _ => AttrObj(val) };
          Ok((key, stored), m)
  }

  /** getMessage: the identifier and the value it stores under it. */
  function GetMessage(s: string, i: nat): (r: Outcome<(string, Entry)>)
  {
    match GetIdentifier(s, i)
    case Fail(e, at) => Fail(e, at)
    case Ok(id, j0) =>
      var j := SkipInlineWS(s, j0);
      match GetPattern(s, SkipInlineWS(s, if Is(s, j, '=') then j + 1 else j))
      case Fail(e, at) => Fail(e, at)
      case Ok(val, k) => MessageEnd(s, id, val, k)
  }

  /** The end of getMessage once the value `val` has been read up to `k`:
      the attributes when a `.` follows, then the storing rule. */
  function MessageEnd(s: string, id: string, val: Option<Pattern>, k: nat): (r: Outcome<(string, Entry)>)
  {
    if Is(s, k, '.') then
      match AttributesLoop(s, k, map[])
      case Fail(e, at) => Fail(e, at)
      case Ok(attrs, m) => Store(id, val, Some(attrs), m)
    else Store(id, val, None, k)
  }

  /** The storing rule at the end of getMessage: a bare string when there
      are no attributes, an object otherwise, and a throw when there is
      neither a value nor attributes. */
  function Store(id: string, val: Option<Pattern>, attrs: Option<map<string, AttrValue>>, k: nat): (r: Outcome<(string, Entry)>) {
    if attrs.None? && val.Some? && val.value.PStr? then Ok((id, Bare(val.value.s)), k)
    else if val.None? && attrs.None? then Fail(ExpectedValueOrAttribute, k)
    else Ok((id, Obj(val, attrs)), k)
  }

  /** The `entries` object after the loop of getResource has tried
      getMessage at each offset of `offs` in turn. */
  function Collect(s: string, offs: seq<nat>): map<string, Entry> {
    if offs == [] then map[]
    else
      var m := Collect(s, offs[..|offs| - 1]);
      match GetMessage(s, offs[|offs| - 1])
      case Ok(p, _) => m[p.0 := p.1]
      case Fail(_, _) => m
  }

  /** getResource: the entries and the (never appended) error list. */
  function GetResource(s: string): (map<string, Entry>, seq<ParseError>) {
    (Collect(s, EntryOffsets.Offsets(s, 0)), [])
  }
}

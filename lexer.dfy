// fluent/src/lexer.js: `messageOffsets`, the same restart-point scan as the
// runtime parser's, and `lexEntry`, a sticky tokenizer that tries the
// patterns of ENTRY_TOKENS in their declaration order at the current index,
// yields the first that matches with its capture groups, moves the index to
// the end of the match, and stops at the first index where none matches.
// Both generators are modelled as methods returning the whole sequence they
// would yield.

module Lexer {
  import opened Text
  import EntryOffsets

  /** The keys of ENTRY_TOKENS. */
  datatype Token =
    | InlineWhitespace   // INLINE_WHITESPACE  /[ \t]+/y
    | BreakIndent        // BREAK_INDENT       /\n\s*[ \t]/y
    | BreakLine          // BREAK_LINE         /\n/y
    | EntryOneLine       // ENTRY_ONE_LINE     /(-?[a-zA-Z][\w-]*)[ \t]*=[ \t]*([^\s{}]+)[ \t]*/y
    | AttributeOneLine   // ATTRIBUTE_ONE_LINE /\.(-?[a-zA-Z][\w-]*)[ \t]*=[ \t]*([^\s{}]+)[ \t]*/y
    | EntryStart         // ENTRY_START        /(-?[a-zA-Z][\w-]*)[ \t]*=?/y
    | AttributeStart     // ATTRIBUTE_START    /\.([a-zA-Z][\w-]*)[ \t]*=?/y
    | Identifier         // IDENTIFIER         /(-?[a-zA-Z][\w-]*)/y
    | StringLit          // STRING             /(".*?")/y
    | Number             // NUMBER             /(-?\d+(?:\.\d+)?)/y

  /** ENTRY_TOKENS in declaration order, which is the order in which
      `Object.entries` returns them and so the order they are tried in. */
  const ENTRY_TOKENS: seq<Token> := [
    InlineWhitespace, BreakIndent, BreakLine,
    EntryOneLine, AttributeOneLine,
    EntryStart, AttributeStart,
    Identifier, StringLit, Number
  ]

  /** The position of a token in ENTRY_TOKENS. */
  function Rank(t: Token): (r: nat)
    ensures r < |ENTRY_TOKENS| && ENTRY_TOKENS[r] == t
  {
    match t
    case InlineWhitespace => 0
    case BreakIndent => 1
    case BreakLine => 2
    case EntryOneLine => 3
    case AttributeOneLine => 4
    case EntryStart => 5
    case AttributeStart => 6
    case Identifier => 7
    case StringLit => 8
    case Number => 9
  }

  /** A successful sticky match: where it ends (the regex's new
      `lastIndex`) and its capture groups (`exec(...).slice(1)`). */
  datatype Hit = Hit(end: nat, values: seq<string>)

  /** What `lexEntry` yields for one match. */
  datatype Lexeme = Lexeme(token: Token, values: seq<string>)

  // ------------------------------------------------------------ the patterns

  /** The end of `-?[a-zA-Z][\w-]*` at `i` (with `minus` false, of
      `[a-zA-Z][\w-]*`). `[\w-]` is IdentChar. No backtracking into the
      run can help what follows in any pattern here, so the greedy end is
      the one the regex settles on. */
  function IdEnd(s: string, i: nat, minus: bool): (r: Option<nat>)
    ensures r.Some? ==> i < r.value <= |s|
  {
    var j := if minus && Is(s, i, '-') && i + 1 < |s| && IsAsciiLetter(s[i + 1]) then i + 1 else i;
    if j < |s| && IsAsciiLetter(s[j]) then Some(Span(s, j + 1, IdentChar)) else None
  }

  /** `[ \t]*=[ \t]*([^\s{}]+)[ \t]*` after an identifier ending at `e`:
      the end of the match and the value group's bounds. */
  function OneLineTail(s: string, e: nat): (r: Option<(nat, nat, nat)>)
    requires e <= |s|
    ensures r.Some? ==> e < r.value.0 < r.value.1 <= r.value.2 <= |s|
  {
    var w1 := Span(s, e, InlineSpace);
    if !Is(s, w1, '=') then None
    else
      var w2 := Span(s, w1 + 1, InlineSpace);
      var v := Span(s, w2, ValueChar);
      if v == w2 then None else Some((w2, v, Span(s, v, InlineSpace)))
  }

  /** `[ \t]*=?` after an identifier ending at `e`. */
  function StartTail(s: string, e: nat): (r: nat)
    requires e <= |s|
    ensures e <= r <= |s|
  {
    var w := Span(s, e, InlineSpace);
    if Is(s, w, '=') then w + 1 else w
  }

  /** The last `[ \t]` in `s[a..b]`, or -1. */
  function LastInlineSpace(s: string, a: nat, b: nat): (r: int)
    requires b <= |s|
    decreases b
    ensures r == -1 || (a <= r < b && IsInlineSpace(s[r]))
  {
    if b <= a then -1
    else if IsInlineSpace(s[b - 1]) then b - 1
    else LastInlineSpace(s, a, b - 1)
  }

  /** The closing quote of `".*?"` opened at `i`: the first `"` after it,
      provided no line terminator comes first. */
  function StringClose(s: string, j: nat): (r: int)
    decreases |s| - j
    ensures r == -1 || (j <= r < |s| && s[r] == '"')
  {
    if j >= |s| then -1
    else if s[j] == '"' then j
    else if IsLineTerminator(s[j]) then -1
    else StringClose(s, j + 1)
  }

  /** `-?\d+(?:\.\d+)?` at `i`, the fraction taken when a digit follows
      the dot. */
  function NumberEnd(s: string, i: nat): (r: Option<nat>)
    ensures r.Some? ==> i < r.value <= |s|
  {
    var d := if Is(s, i, '-') then i + 1 else i;
    var e := Span(s, d, Digit);
    if e == d then None
    else if Is(s, e, '.') && e + 1 < |s| && IsDigit(s[e + 1]) then Some(Span(s, e + 2, Digit))
    else Some(e)
  }

  /** `regex.test(source)` followed by `regex.exec(source)` with
      `lastIndex = i`, for the pattern of `t`. Every pattern consumes at
      least one character. */
  function Match(t: Token, s: string, i: nat): (r: Option<Hit>)
    ensures r.Some? ==> i < r.value.end <= |s|
  {
    match t
    case InlineWhitespace =>
      var e := Span(s, i, InlineSpace);
      if e > i then Some(Hit(e, [])) else None
    case BreakIndent => MatchBreakIndent(s, i)
    case BreakLine => if Is(s, i, '\n') then Some(Hit(i + 1, [])) else None
    case EntryOneLine => MatchOneLine(s, i)
    case AttributeOneLine => if Is(s, i, '.') then MatchOneLine(s, i + 1) else None
    case EntryStart => MatchStart(s, i, true)
    case AttributeStart => if Is(s, i, '.') then MatchStart(s, i + 1, false) else None
    case Identifier =>
      var e := IdEnd(s, i, true);
      if e.Some? then Some(Hit(e.value, [s[i..e.value]])) else None
    case StringLit => MatchString(s, i)
    case Number =>
      var e := NumberEnd(s, i);
      if e.Some? then Some(Hit(e.value, [s[i..e.value]])) else None
  }

  /** `\n\s*[ \t]`: the greedy `\s*` gives back characters until a
      `[ \t]` can end the match, so the match ends after the last space or
      tab of the white space run that follows the line feed. */
  function MatchBreakIndent(s: string, i: nat): (r: Option<Hit>)
    ensures r.Some? ==> i < r.value.end <= |s|
  {
    if !Is(s, i, '\n') then None
    else
      var q := LastInlineSpace(s, i + 1, Span(s, i + 1, Whitespace));
      if q == -1 then None else Some(Hit(q + 1, []))
  }

  /** The identifier from `j` followed by `[ \t]*=[ \t]*([^\s{}]+)[ \t]*`. */
  function MatchOneLine(s: string, j: nat): (r: Option<Hit>)
    ensures r.Some? ==> j < r.value.end <= |s|
  {
    var e := IdEnd(s, j, true);
    if e.None? then None
    else
      var tail := OneLineTail(s, e.value);
      if tail.None? then None
      else Some(Hit(tail.value.2, [s[j..e.value], s[tail.value.0..tail.value.1]]))
  }

  /** The identifier from `j` followed by `[ \t]*=?`. */
  function MatchStart(s: string, j: nat, minus: bool): (r: Option<Hit>)
    ensures r.Some? ==> j < r.value.end <= |s|
  {
    var e := IdEnd(s, j, minus);
    if e.None? then None else Some(Hit(StartTail(s, e.value), [s[j..e.value]]))
  }

  /** `(".*?")`: from the opening quote to the first closing one on the
      same line. */
  function MatchString(s: string, i: nat): (r: Option<Hit>)
    ensures r.Some? ==> i < r.value.end <= |s|
  {
    if !Is(s, i, '"') then None
    else
      var q := StringClose(s, i + 1);
      if q == -1 then None else Some(Hit(q + 1, [s[i..q + 1]]))
  }

  // ----------------------------------------------------------- the tokenizer

  /** The inner `for` loop from the token at position `t` of ENTRY_TOKENS:
      the first of the remaining tokens whose pattern matches at `i`. */
  function FirstMatch(s: string, i: nat, t: nat): (r: Option<(Token, Hit)>)
    decreases |ENTRY_TOKENS| - t
    ensures r.Some? ==> i < r.value.1.end <= |s|
  {
    if t >= |ENTRY_TOKENS| then None
    else
      match Match(ENTRY_TOKENS[t], s, i)
      case Some(h) => Some((ENTRY_TOKENS[t], h))
      case None => FirstMatch(s, i, t + 1)
  }

  /** One yielded lexeme with the span of source it was matched on. */
  datatype Lexed = Lexed(lexeme: Lexeme, start: nat, end: nat)

  /** Everything `lexEntry(s, i)` yields, with spans. */
  function Lex(s: string, i: nat): seq<Lexed>
    decreases |s| - i
  {
    match FirstMatch(s, i, 0)
    case None => []
    case Some((t, h)) => [Lexed(Lexeme(t, h.values), i, h.end)] + Lex(s, h.end)
  }

  function Lexemes(ls: seq<Lexed>): (r: seq<Lexeme>)
    ensures |r| == |ls|
  {
    if ls == [] then [] else [ls[0].lexeme] + Lexemes(ls[1..])
  }

  /** lexEntry: the lexemes from `index` on, in order. */
  method LexEntry(source: string, index0: nat) returns (lexemes: seq<Lexeme>)
    ensures lexemes == Lexemes(Lex(source, index0))
  {
    var index := index0;
    lexemes := [];
    while true
      invariant lexemes + Lexemes(Lex(source, index)) == Lexemes(Lex(source, index0))
      decreases |source| - index
    {
      var found := TryTokens(source, index);
      if found.None? {
        assert lexemes == Lexemes(Lex(source, index0));
        return;
      }
      var (token, hit) := found.value;
      var rest := Lex(source, hit.end);
      assert Lex(source, index) == [Lexed(Lexeme(token, hit.values), index, hit.end)] + rest;
      assert Lexemes(Lex(source, index)) == [Lexeme(token, hit.values)] + Lexemes(rest) by {
        assert Lex(source, index)[1..] == rest;
      }
      lexemes := lexemes + [Lexeme(token, hit.values)];
      index := hit.end;
    }
  }

  /** The `for` loop of lexEntry over ENTRY_TOKENS: each pattern in turn
      is tested with its `lastIndex` at `index`, and the loop breaks at the
      first that matches. */
  method TryTokens(source: string, index: nat) returns (found: Option<(Token, Hit)>)
    ensures found == FirstMatch(source, index, 0)
  {
    var t := 0;
    while t < |ENTRY_TOKENS|
      invariant t <= |ENTRY_TOKENS|
      invariant FirstMatch(source, index, t) == FirstMatch(source, index, 0)
    {
      var token := ENTRY_TOKENS[t];
      var m := Match(token, source, index);
      if m.Some? {
        return Some((token, m.value));
      }
      t := t + 1;
    }
    return None;
  }

  /** messageOffsets: the line starts at which `messageStartRe` matches. */
  method MessageOffsets(source: string) returns (offsets: seq<nat>)
    ensures offsets == EntryOffsets.Offsets(source, 0)
  {
    var lastIndex: nat := 0;
    offsets := [];
    while true
      invariant lastIndex <= |source|
      invariant offsets + EntryOffsets.Offsets(source, lastIndex) == EntryOffsets.Offsets(source, 0)
      decreases |source| - lastIndex
    {
      var here := if EntryOffsets.MessageStartAt(source, lastIndex) then [lastIndex] else [];
      EntryOffsets.ScanStep(source, offsets, lastIndex);
      offsets := offsets + here;
      var lineEnd := IndexOf(source, '\n', lastIndex);
      if lineEnd == -1 {
        break;
      }
      lastIndex := lineEnd + 1;
    }
  }
}

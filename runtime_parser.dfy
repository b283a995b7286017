// `RuntimeParser` (fluent/src/parser.js:28-769): a cursor parser over
// `source` whose methods move `index` and, in getMessage, write `entries`.
// A thrown SyntaxError is a `Failure` result that every caller passes on;
// the index the object is left with is part of what each method promises.
// Each method is proved to agree with the function of the same name in
// RuntimeGrammar (`Observe(r, index) == G.F(source, old(index))`).

module RuntimeParserClass {
  import opened Text
  import opened RuntimeAst
  import G = RuntimeGrammar
  import EntryOffsets

  /** What getMessage leaves behind for the step outcome `o`: on success the
      entry is written under its identifier (replacing an earlier one), on a
      throw the entries are untouched; either way `index` is where `o` ends. */
  predicate Recorded(o: Outcome<(string, Entry)>, r: Result<()>, index: nat,
                     entries: map<string, Entry>, before: map<string, Entry>)
  {
    match o
    case Ok(p, j) => r.Success? && index == j && entries == before[p.0 := p.1]
    case Fail(e, at) => r == Failure(e) && index == at && entries == before
  }

  class RuntimeParser {
    const source: string  // `_source`; `_length` is |source|
    var index: nat        // `_index`
    var entries: map<string, Entry>

    /** `new RuntimeParser()` together with the assignment of `_source` at
        the head of getResource: one parser object per source string. */
    constructor (str: string)
      ensures source == str && index == 0 && entries == map[]
    {
      source := str;
      index := 0;
      entries := map[];
    }

    /** getResource: resets the cursor and the entries, tries getMessage at
        each restart point; a message that throws is skipped, and the error
        list stays empty. */
    method GetResource() returns (result: map<string, Entry>, errors: seq<ParseError>)
      modifies this
      ensures entries == result
      ensures (result, errors) == G.GetResource(source)
    {
      index := 0;
      entries := map[];
      errors := [];
      var offsets := MessageStartingPositions(source);
      var k := 0;
      while k < |offsets|
        invariant 0 <= k <= |offsets|
        invariant entries == G.Collect(source, offsets[..k])
      {
        index := offsets[k];
        var _ := GetMessage();
        assert offsets[..k + 1][..k] == offsets[..k];
        k := k + 1;
      }
      assert offsets[..|offsets|] == offsets;
      result := entries;
    }

    /** messageStartingPositions: the offsets of the line starts at which
        `messageStartRe` matches. */
    method MessageStartingPositions(src: string) returns (offsets: seq<nat>)
      ensures offsets == EntryOffsets.Offsets(src, 0)
    {
      var lastIndex: nat := 0;
      offsets := [];
      while true
        invariant lastIndex <= |src|
        invariant offsets + EntryOffsets.Offsets(src, lastIndex) == EntryOffsets.Offsets(src, 0)
        decreases |src| - lastIndex
      {
        var here := if EntryOffsets.MessageStartAt(src, lastIndex) then [lastIndex] else [];
        EntryOffsets.ScanStep(src, offsets, lastIndex);
        offsets := offsets + here;
        var lineEnd := IndexOf(src, '\n', lastIndex);
        if lineEnd == -1 {
          break;
        }
        lastIndex := lineEnd + 1;
      }
    }

    /** getMessage: parses one message and stores it; nothing is stored when
        any part of it throws. */
    method GetMessage() returns (r: Result<()>)
      modifies this`index, this`entries
      ensures Recorded(G.GetMessage(source, old(index)), r, index, entries, old(entries))
    {
      var id := GetIdentifier();
      if id.Failure? {
        assert G.GetMessage(source, old(index)) == Fail(id.err, index);
        return Failure(id.err);
      }
      SkipInlineWS();
      if Is(source, index, '=') {
        index := index + 1;
      }
      SkipInlineWS();
      var val := GetPattern();
      if val.Failure? {
        assert G.GetMessage(source, old(index)) == Fail(val.err, index);
        return Failure(val.err);
      }
      assert G.GetMessage(source, old(index)) == G.MessageEnd(source, id.value, val.value, index);
      r := StoreMessage(id.value, val.value);
    }

    /** The end of getMessage after the value `val`: the attributes, and
        the entry written under `id`: the bare string when there are no
        attributes and the value is a string, an object otherwise. */
    method StoreMessage(id: string, val: Option<Pattern>) returns (r: Result<()>)
      modifies this`index, this`entries
      ensures Recorded(G.MessageEnd(source, id, val, old(index)), r, index, entries, old(entries))
    {
      var attrs: Option<map<string, AttrValue>> := None;
      if Is(source, index, '.') {
        var a := GetAttributes();
        if a.Failure? {
          return Failure(a.err);
        }
        attrs := Some(a.value);
      }
      assert G.MessageEnd(source, id, val, old(index)) == G.Store(id, val, attrs, index);
      if attrs.None? && val.Some? && val.value.PStr? {
        entries := entries[id := Bare(val.value.s)];
      } else {
        if val.None? && attrs.None? {
          return Failure(ExpectedValueOrAttribute);
        }
        entries := entries[id := Obj(val, attrs)];
      }
      r := Success(());
    }

    /** skipIndent: returns the character it stops on (or `undefined`). */
    method SkipIndent() returns (c: Option<char>)
      modifies this`index
      ensures index == G.SkipIndent(source, old(index))
      ensures c == At(source, index)
    {
      SkipInlineWS();
      if !Is(source, index, '\n') {
        return At(source, index);
      }
      var e := G.IndentReEnd(source, index);
      if e.Some? {
        index := e.value - 1;
        SkipInlineWS();
        return At(source, index);
      }
      return Some('\n');
    }

    /** skipInlineWS: `inlineWhitespaceRe` tested at the index; on a match
        the index moves to its `lastIndex`. */
    method SkipInlineWS()
      modifies this`index
      ensures index == G.SkipInlineWS(source, old(index))
    {
      index := G.SkipInlineWS(source, index);
    }

    /** getIdentifier */
    method GetIdentifier() returns (r: Result<string>)
      modifies this`index
      ensures Observe(r, index) == G.GetIdentifier(source, old(index))
    {
      var e := G.IdentifierEnd(source, index);
      if e.None? {
        index := index + 1;
        return Failure(ExpectedIdentifier);
      }
      r := Success(Slice(source, index, e.value));
      index := e.value;
    }

    /** getVariantName */
    method GetVariantName() returns (r: Result<VariantKey>)
      modifies this`index
      ensures Observe(r, index) == G.GetVariantName(source, old(index))
    {
      var start := index;
      if !(index < |source| && (IsAsciiLetter(source[index]) || source[index] == '_' || source[index] == ' ')) {
        return Failure(ExpectedKeyword);
      }
      index := index + 1;
      while index < |source| && InClass(source[index], VariantNameChar)
        invariant Span(source, index, VariantNameChar) == Span(source, start + 1, VariantNameChar)
        decreases |source| - index
      {
        index := index + 1;
      }
      ghost var j := index;
      while 0 < index && index - 1 < |source| && source[index - 1] == ' '
        invariant G.TrimSpaces(source, index) == G.TrimSpaces(source, j)
      {
        index := index - 1;
      }
      r := Success(KeyName(Slice(source, start, index)));
    }

    /** getString */
    method GetString() returns (r: Result<Expr>)
      modifies this`index
      ensures Observe(r, index) == G.GetString(source, old(index))
    {
      var start := index + 1;
      index := index + 1;
      while index < |source|
        invariant start <= index
        invariant G.StringStop(source, index) == G.StringStop(source, start)
        decreases |source| - index
      {
        var ch := source[index];
        if ch == '"' {
          break;
        }
        if ch == '\n' {
          return Failure(UnterminatedString);
        }
        index := index + 1;
      }
      r := Success(Str(Slice(source, start, index)));
      index := index + 1;
    }

    /** getNumber */
    method GetNumber() returns (r: Result<Expr>)
      modifies this`index
      ensures Observe(r, index) == G.GetNumber(source, old(index))
    {
      var e := G.NumberEnd(source, index);
      if e.None? {
        return Failure(ExpectedNumber);
      }
      r := Success(Num(Slice(source, index, e.value)));
      index := e.value;
    }

    /** getLiteral */
    method GetLiteral() returns (r: Result<Expr>)
      modifies this`index
      ensures Observe(r, index) == G.GetLiteral(source, old(index))
    {
      if G.ExternalReMatches(source, index) {
        // `externalRe` needs the end of the input and a letter at once.
        assert false;
      }
      if G.IdentifierEnd(source, index).Some? {
        var name := GetIdentifier();
        r := match name case Success(n) => Success(Ref(n)) case Failure(e) => Failure(e);
        return;
      }
      if G.NumberEnd(source, index).Some? {
        r := GetNumber();
        return;
      }
      if G.StringReMatches(source, index) {
        r := GetString();
        return;
      }
      r := Failure(ExpectedLiteral);
    }

    /** getVariantKey */
    method GetVariantKey() returns (r: Result<VariantKey>)
      modifies this`index
      ensures Observe(r, index) == G.GetVariantKey(source, old(index))
    {
      if index < |source| && (IsDigit(source[index]) || source[index] == '-') {
        var n := GetNumber();
        if n.Failure? {
          return Failure(n.err);
        }
        r := Success(KeyNumber(n.value.val));
      } else {
        r := GetVariantName();
        if r.Failure? {
          return;
        }
      }
      if !Is(source, index, ']') {
        return Failure(ExpectedCloseBracket);
      }
      index := index + 1;
    }

    /** getPattern */
    method GetPattern() returns (r: Result<Option<Pattern>>)
      requires index <= |source|
      modifies this`index
      decreases G.D(source, index), 9
      ensures Observe(r, index) == G.GetPattern(source, old(index))
    {
      var start := index;
      var e := IndexOf(source, '\n', index);
      var eol: nat := if e == -1 then |source| else e;
      var first: Option<string> := if start != eol then Some(Slice(source, start, eol)) else None;
      if first.Some? && Includes(first.value, '{') {
        r := GetComplexPattern();
        return;
      }
      index := eol;
      var c := SkipIndent();
      if c == Some('\n') || Is(source, index, '.') {
        return Success(if first.Some? then Some(PStr(first.value)) else None);
      }
      if first.Some? {
        index := start;
      }
      r := GetComplexPattern();
    }

    /** getComplexPattern */
    method GetComplexPattern() returns (r: Result<Option<Pattern>>)
      modifies this`index
      decreases G.D(source, index), 8
      ensures Observe(r, index) == G.GetComplexPattern(source, old(index))
    {
      var buffer := "";
      var content: seq<Element> := [];
      var placeables: nat := 0;
      while index < |source|
        invariant index >= old(index)
        invariant G.ComplexLoop(source, index, buffer, content, placeables) == G.GetComplexPattern(source, old(index))
        decreases G.D(source, index)
      {
        var ch := Some(source[index]);
        if source[index] == '\n' {
          var stop;
          stop, ch, buffer := BlankLines(buffer, content, placeables);
          if stop {
            return Success(G.Finish(buffer, content));
          }
        }
        assert G.ComplexStep(source, index, ch, buffer, content, placeables) == G.GetComplexPattern(source, old(index));
        if ch == Some('{') {
          var failed;
          failed, content := Placeable(buffer, content, placeables);
          if failed.Some? {
            return Failure(failed.value);
          }
          buffer := "";
          placeables := placeables + 1;
          continue;
        }
        buffer := TextChar(ch, buffer, content, placeables);
      }
      r := Success(G.Finish(buffer, content));
    }

    /** The text part of getComplexPattern's loop for the character `ch`:
        an escaped `"`, `{` or `\\` is taken without its backslash, and the
        character is appended to the buffer. */
    method TextChar(ch: Option<char>, buffer: string, ghost content: seq<Element>, ghost n: nat) returns (buffer': string)
      requires index <= |source|
      modifies this`index
      ensures index > old(index)
      ensures G.TextStep(source, old(index), ch, buffer, content, n) == G.ComplexLoop(source, index, buffer', content, n)
    {
      var c := ch;
      if c == Some('\\') {
        var ch2 := At(source, index + 1);
        if ch2 == Some('"') || ch2 == Some('{') || ch2 == Some('\\') {
          c := ch2;
          index := index + 1;
        }
      }
      buffer' := if c.Some? then buffer + [c.value] else buffer;
      index := index + 1;
    }

    /** The multi-line block of getComplexPattern's loop, entered on a line
        feed: either the pattern ends (`stop`), or the line feeds and the
        indentation are folded into the buffer and `ch` is the character the
        index is left on. */
    method BlankLines(buffer: string, ghost content: seq<Element>, ghost n: nat) returns (stop: bool, ch: Option<char>, buffer': string)
      requires index < |source| && source[index] == '\n'
      modifies this`index
      ensures stop ==> buffer' == buffer
      ensures !stop ==> old(index) < index <= |source|
      ensures G.ComplexLoop(source, old(index), buffer, content, n) ==
        if stop then Ok(G.Finish(buffer, content), index) else G.ComplexStep(source, index, ch, buffer', content, n)
    {
      var blankLinesStart := index;
      var c := SkipIndent();
      if c.Some? && G.IsPatternEnd(c.value) {
        return true, c, buffer;
      }
      ch := At(source, index);
      buffer' := buffer + G.NormalizeBreaks(Slice(source, blankLinesStart, index - 1));
      stop := false;
    }

    /** The `{` block of getComplexPattern's loop: the buffer is pushed, the
        limit on placeables checked, and the placeable read; the index is
        left past its closing brace. */
    method Placeable(buffer: string, content: seq<Element>, placeables: nat) returns (failed: Option<ParseError>, content': seq<Element>)
      requires index <= |source|
      modifies this`index
      decreases G.D(source, index), 7
      ensures failed.None? ==> index > old(index)
      ensures G.BraceStep(source, old(index), buffer, content, placeables) ==
        match failed
        case Some(e) => Fail(e, index)
        case None => G.ComplexLoop(source, index, "", content', placeables + 1)
    {
      content' := content;
      if |buffer| > 0 {
        content' := content' + [Text(buffer)];
      }
      if placeables > G.MAX_PLACEABLES - 1 {
        return Some(TooManyPlaceables), content';
      }
      var p := GetPlaceable();
      if p.Failure? {
        return Some(p.err), content';
      }
      content' := content' + [Place(p.value)];
      index := index + 1;
      failed := None;
    }

    /** getPlaceable, called with the index on `{`. */
    method GetPlaceable() returns (r: Result<Expr>)
      modifies this`index
      decreases G.D(source, index), 5
      ensures Observe(r, index) == G.GetPlaceable(source, old(index))
    {
      index := index + 1;
      var start := index;
      var _ := SkipIndent();
      if Is(source, index, '*') || (Is(source, index, '[') && !Is(source, index + 1, ']')) {
        assert G.GetPlaceable(source, old(index)) == G.SelectOf(None, G.VariantsLoop(source, index, [], None));
        r := GetSelect(None);
        return;
      }
      index := start;
      r := SelectorPlaceable();
    }

    /** getPlaceable from the character after `{` when no variant list
        follows it: the selector expression after inline whitespace, then
        what follows it past any indent. */
    method SelectorPlaceable() returns (r: Result<Expr>)
      modifies this`index
      decreases G.D(source, index), 4
      ensures Observe(r, index) ==
        match G.GetSelectorExpression(source, G.SkipInlineWS(source, old(index)))
        case Fail(e, at) => Fail(e, at)
        case Ok(sel, k) => G.SelectorPlaceable(source, sel, G.SkipIndent(source, k))
    {
      SkipInlineWS();
      var selector := GetSelectorExpression();
      if selector.Failure? {
        return Failure(selector.err);
      }
      var sel := selector.value;
      var _ := SkipIndent();
      r := SelectorTail(sel);
    }

    /** The rest of getPlaceable after the selector expression `sel`: a
        closing brace, or `->` with the variants on the next line. */
    method SelectorTail(sel: Expr) returns (r: Result<Expr>)
      modifies this`index
      decreases G.D(source, index), 3
      ensures Observe(r, index) == G.SelectorPlaceable(source, sel, old(index))
    {
      if Is(source, index, '}') {
        if sel.Attr? && |sel.id| > 0 && sel.id[0] == '-' {
          return Failure(PrivateAttributeInterpolated);
        }
        return Success(sel);
      }
      if !(Is(source, index, '-') && Is(source, index + 1, '>')) {
        return Failure(ExpectedBraceOrArrow);
      }
      if sel.Ref? {
        return Failure(ReferenceAsSelector);
      }
      if sel.VariantRef? {
        return Failure(VariantAsSelector);
      }
      if sel.Attr? && !(|sel.id| > 0 && sel.id[0] == '-') {
        return Failure(PublicAttributeAsSelector);
      }
      index := index + 2;
      SkipInlineWS();
      if !Is(source, index, '\n') {
        return Failure(VariantsOnNewLine);
      }
      var _ := SkipIndent();
      r := GetSelect(Some(sel));
    }

    /** The variant list of a select expression and the expression built
        from it; one with a selector needs at least one variant. */
    method GetSelect(sel: Option<Expr>) returns (r: Result<Expr>)
      modifies this`index
      decreases G.D(source, index), 4
      ensures Observe(r, index) == G.SelectOf(sel, G.VariantsLoop(source, old(index), [], None))
    {
      var v := GetVariants();
      if v.Failure? {
        return Failure(v.err);
      }
      if sel.Some? && |v.value.0| == 0 {
        return Failure(ExpectedVariants);
      }
      r := Success(Select(sel, v.value.0, v.value.1));
    }

    /** getSelectorExpression */
    method GetSelectorExpression() returns (r: Result<Expr>)
      modifies this`index
      decreases G.D(source, index), 1
      ensures Observe(r, index) == G.GetSelectorExpression(source, old(index))
    {
      var literal := GetLiteral();
      if literal.Failure? || !literal.value.Ref? {
        return literal;
      }
      r := ReferenceTail(literal.value.name);
    }

    /** The part of getSelectorExpression after a message reference `name`:
        an attribute, a variant or a call; after the name of the attribute
        and after the key the index moves one more character on. */
    method ReferenceTail(name: string) returns (r: Result<Expr>)
      modifies this`index
      decreases G.D(source, index), 0
      ensures Observe(r, index) == G.ReferenceTail(source, name, old(index))
    {
      if Is(source, index, '.') {
        index := index + 1;
        var attr := GetIdentifier();
        if attr.Failure? {
          return Failure(attr.err);
        }
        index := index + 1;
        return Success(Attr(name, attr.value));
      }
      if Is(source, index, '[') {
        index := index + 1;
        var key := GetVariantKey();
        if key.Failure? {
          return Failure(key.err);
        }
        index := index + 1;
        return Success(VariantRef(name, key.value));
      }
      if Is(source, index, '(') {
        index := index + 1;
        var args := GetCallArgs();
        if args.Failure? {
          return Failure(args.err);
        }
        index := index + 1;
        return Success(Call(name, args.value));
      }
      r := Success(Ref(name));
    }

    /** getCallArgs */
    method GetCallArgs() returns (r: Result<seq<Arg>>)
      modifies this`index
      decreases G.D(source, index), 5
      ensures Observe(r, index) == G.CallArgsLoop(source, old(index), [])
    {
      var args: seq<Arg> := [];
      while index < |source|
        invariant index >= old(index)
        invariant G.CallArgsLoop(source, index, args) == G.CallArgsLoop(source, old(index), [])
        decreases G.D(source, index)
      {
        var more;
        r, more := CallArg(args);
        if !more {
          return;
        }
        args := r.value;
      }
      assert G.CallArgsLoop(source, index, args) == Ok(args, index);
      r := Success(args);
    }

    /** One turn of getCallArgs' loop: either it ends the loop (`more` is
        false) with the loop's result, or it reads one more argument and a
        `,` and the loop goes on from the new index with `r.value`. */
    method CallArg(args: seq<Arg>) returns (r: Result<seq<Arg>>, more: bool)
      requires index < |source|
      modifies this`index
      decreases G.D(source, index), 4
      ensures more ==> r.Success? && index > old(index)
      ensures more ==> G.CallArgsLoop(source, old(index), args) == G.CallArgsLoop(source, index, r.value)
      ensures !more ==> Observe(r, index) == G.CallArgsLoop(source, old(index), args)
    {
      SkipInlineWS();
      if Is(source, index, ')') {
        return Success(args), false;
      }
      var e := GetSelectorExpression();
      if e.Failure? {
        return Failure(e.err), false;
      }
      r, more := ArgTail(args, e.value);
    }

    /** The rest of one turn after the argument's first expression `exp`:
        the argument, then `)` or `,`. */
    method ArgTail(args: seq<Arg>, exp: Expr) returns (r: Result<seq<Arg>>, more: bool)
      modifies this`index
      decreases G.D(source, index), 3
      ensures more ==> r.Success? && index > old(index)
      ensures more ==> G.ArgTail(source, args, exp, old(index)) == G.CallArgsLoop(source, index, r.value)
      ensures !more ==> Observe(r, index) == G.ArgTail(source, args, exp, old(index))
    {
      more := false;
      var a := GetArgument(exp);
      if a.Failure? {
        return Failure(a.err), false;
      }
      var arg := a.value;
      SkipInlineWS();
      if Is(source, index, ')') {
        r := Success(args + [arg]);
      } else if Is(source, index, ',') {
        index := index + 1;
        r, more := Success(args + [arg]), true;
      } else {
        r := Failure(ExpectedCommaOrParen);
      }
    }

    /** The part of getCallArgs' loop after an argument's first expression
        `exp`: a reference followed by `:` names the value after it, which
        must be a string or a number. */
    method GetArgument(exp: Expr) returns (r: Result<Arg>)
      modifies this`index
      decreases G.D(source, index), 2
      ensures Observe(r, index) == G.NamedOrPositional(source, exp, old(index))
    {
      if !exp.Ref? {
        return Success(Positional(exp));
      }
      SkipInlineWS();
      if !Is(source, index, ':') {
        return Success(Positional(exp));
      }
      index := index + 1;
      SkipInlineWS();
      var v := GetSelectorExpression();
      if v.Failure? {
        return Failure(v.err);
      }
      var val := v.value;
      if !(val.Str? || val.Num?) {
        index := LastIndexOf(source, ':', index) + 1;
        return Failure(ExpectedStringOrNumber);
      }
      r := Success(Named(exp.name, val));
    }

    /** getAttributes */
    method GetAttributes() returns (r: Result<map<string, AttrValue>>)
      modifies this`index
      ensures Observe(r, index) == G.AttributesLoop(source, old(index), map[])
    {
      var attrs: map<string, AttrValue> := map[];
      while index < |source|
        invariant index >= old(index)
        invariant G.AttributesLoop(source, index, attrs) == G.AttributesLoop(source, old(index), map[])
        decreases G.D(source, index)
      {
        if source[index] != '.' {
          break;
        }
        ghost var i, before := index, attrs;
        index := index + 1;
        var a := GetAttribute();
        if a.Failure? {
          assert G.AttributesLoop(source, i, before) == Fail(a.err, index);
          return Failure(a.err);
        }
        attrs := attrs[a.value.0 := a.value.1];
        assert G.AttributesLoop(source, i, before) == G.AttributesLoop(source, index, attrs);
      }
      assert G.AttributesLoop(source, index, attrs) == Ok(attrs, index);
      r := Success(attrs);
    }

    /** The body of getVariants' loop from the `[` of a variant's key to the
        end of its pattern. */
    method GetVariant() returns (r: Result<Variant>)
      modifies this`index
      decreases G.D(source, index), 1
      ensures Observe(r, index) == G.GetVariant(source, old(index))
    {
      if !Is(source, index, '[') {
        return Failure(ExpectedOpenBracket);
      }
      index := index + 1;
      var key := GetVariantKey();
      if key.Failure? {
        return Failure(key.err);
      }
      SkipInlineWS();
      var val := GetPattern();
      if val.Failure? {
        return Failure(val.err);
      }
      r := Success(Variant(key.value, val.value));
    }

    /** The body of getAttributes' loop after the `.`: one attribute and
        the value to store under its key. */
    method GetAttribute() returns (r: Result<(string, AttrValue)>)
      modifies this`index
      ensures Observe(r, index) == G.GetAttribute(source, old(index))
    {
      var key := GetIdentifier();
      if key.Failure? {
        return Failure(key.err);
      }
      SkipInlineWS();
      if !Is(source, index, '=') {
        return Failure(ExpectedEquals);
      }
      index := index + 1;
      SkipInlineWS();
      var val := GetPattern();
      if val.Failure? {
        return Failure(val.err);
      }
      var stored := match val.value { case Some(PStr(t)) => AttrStr(t) case _ => AttrObj(val.value) };
      r := Success((key.value, stored));
    }

    /** getVariants */
    method GetVariants() returns (r: Result<(seq<Variant>, Option<nat>)>)
      modifies this`index
      decreases G.D(source, index), 3
      ensures Observe(r, index) == G.VariantsLoop(source, old(index), [], None)
    {
      var variants: seq<Variant> := [];
      var defaultIndex: Option<nat> := None;
      while index < |source|
        invariant index >= old(index)
        invariant G.VariantsLoop(source, index, variants, defaultIndex) == G.VariantsLoop(source, old(index), [], None)
        decreases G.D(source, index)
      {
        var ch := source[index];
        if (ch != '[' || Is(source, index + 1, '[')) && ch != '*' {
          break;
        }
        var t := NextVariant(variants, defaultIndex);
        if t.Failure? {
          return Failure(t.err);
        }
        variants, defaultIndex := t.value.0, t.value.1;
      }
      assert G.VariantsLoop(source, index, variants, defaultIndex) == Ok((variants, defaultIndex), index);
      r := Success((variants, defaultIndex));
    }

    /** One turn of getVariants' loop, from the `[` or `*` of a variant:
        on success the variants and default index after it, with the index
        past the indent that follows. */
    method NextVariant(variants: seq<Variant>, defaultIndex: Option<nat>) returns (r: Result<(seq<Variant>, Option<nat>)>)
      requires index < |source|
      modifies this`index
      decreases G.D(source, index), 2
      ensures r.Success? ==> index > old(index)
      ensures r.Success? ==> G.VariantTurn(source, old(index), variants, defaultIndex) == G.VariantsLoop(source, index, r.value.0, r.value.1)
      ensures r.Failure? ==> Observe(r, index) == G.VariantTurn(source, old(index), variants, defaultIndex)
    {
      var def := defaultIndex;
      if source[index] == '*' {
        index := index + 1;
        def := Some(|variants|);
      }
      var v := GetVariant();
      if v.Failure? {
        return Failure(v.err);
      }
      var _ := SkipIndent();
      r := Success((variants + [v.value], def));
    }
  }
}

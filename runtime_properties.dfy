// Properties of the runtime parser (fluent/src/parser.js), proved about the
// functions of RuntimeGrammar that the methods of `RuntimeParser` are proved
// to compute.

module RuntimeProperties {
  import opened Text
  import opened RuntimeAst
  import opened RuntimeGrammar

  // ---------------------------------------------------------------- scanning

  /** skipInlineWS never moves back, passes over spaces and tabs only, stops
      on a character that is neither, and a second call does nothing. */
  lemma SkipInlineWSSpec(s: string, i: nat)
    requires i <= |s|
    ensures i <= SkipInlineWS(s, i) <= |s|
    ensures forall p :: i <= p < SkipInlineWS(s, i) ==> IsInlineSpace(s[p])
    ensures SkipInlineWS(s, i) < |s| ==> !IsInlineSpace(s[SkipInlineWS(s, i)])
    ensures SkipInlineWS(s, SkipInlineWS(s, i)) == SkipInlineWS(s, i)
  {
    SpanRun(s, i, InlineSpace);
  }

  /** skipIndent lands on a character that is not a space or a tab. Off a
      line feed it is where skipInlineWS lands. On a line feed it stays
      there when the run of line feeds starting there is not followed by
      one of `[ \t*[.{}]`; otherwise it lands where skipInlineWS lands from
      that mark. */
  lemma {:induction false} SkipIndentSpec(s: string, i: nat)
    requires i <= |s|
    ensures var w, j := SkipInlineWS(s, i), SkipIndent(s, i);
      && (j < |s| ==> !IsInlineSpace(s[j]))
      && (!Is(s, w, '\n') ==> j == w)
      && (Is(s, w, '\n') ==>
            var n := Span(s, w, Newline);
            && w < n <= |s|
            && (forall p :: w <= p < n ==> s[p] == '\n')
            && (n < |s| ==> s[n] != '\n')
            && j == (if n < |s| && IsIndentMark(s[n]) then SkipInlineWS(s, n) else w))
  {
    var w := SkipInlineWS(s, i);
    SkipInlineWSSpec(s, i);
    if Is(s, w, '\n') {
      var n := Span(s, w, Newline);
      SpanRun(s, w, Newline);
      if n < |s| && IsIndentMark(s[n]) {
        SkipInlineWSSpec(s, n);
      }
    }
  }

  /** An identifier is the text between the start and the new index: an
      optional `-`, an ASCII letter, then the longest run of
      `[a-zA-Z0-9_-]`. Anything else throws. */
  lemma GetIdentifierSpec(s: string, i: nat)
    ensures GetIdentifier(s, i).Ok? <==>
      (Is(s, i, '-') && i + 1 < |s| && IsAsciiLetter(s[i + 1])) || (i < |s| && IsAsciiLetter(s[i]))
    ensures GetIdentifier(s, i).Ok? ==>
      var r := GetIdentifier(s, i);
      var head := if s[i] == '-' then i + 2 else i + 1;
      && head <= r.next
      && r.value == s[i..r.next]
      && (forall p :: head <= p < r.next ==> InClass(s[p], IdentChar))
      && (r.next < |s| ==> !InClass(s[r.next], IdentChar))
  {
    var r := GetIdentifier(s, i);
    if r.Ok? {
      var head := if s[i] == '-' then i + 2 else i + 1;
      SliceIsSubsequence(s, i, r.next);
      SpanRun(s, head, IdentChar);
    }
  }

  /** getVariantName accepts a keyword starting with a letter, `_` or a
      space; its text is the source between the start and the new index,
      never ends in a space, and only spaces lie between the new index and
      the end of the `[a-zA-Z0-9_- ]` run. */
  lemma GetVariantNameSpec(s: string, i: nat)
    ensures GetVariantName(s, i).Ok? <==> i < |s| && (IsAsciiLetter(s[i]) || s[i] == '_' || s[i] == ' ')
    ensures GetVariantName(s, i).Fail? ==> GetVariantName(s, i) == Fail(ExpectedKeyword, i)
    ensures GetVariantName(s, i).Ok? ==>
      var r := GetVariantName(s, i);
      var run := Span(s, i + 1, VariantNameChar);
      && r.next <= run <= |s|
      && r.value.name == Slice(s, i, r.next)
      && (r.value.name == "" || r.value.name[|r.value.name| - 1] != ' ')
      && (forall p :: r.next <= p < run ==> s[p] == ' ')
  {
    var r := GetVariantName(s, i);
    if r.Ok? {
      var run := Span(s, i + 1, VariantNameChar);
      TrimSpacesRun(s, run);
      if i < r.next {
        SliceIsSubsequence(s, i, r.next);
      }
    }
  }

  /** A consequence of giving the trailing spaces back: a keyword followed by
      spaces before its `]` is rejected by getVariantKey, at the first of
      those spaces. */
  lemma KeywordWithTrailingSpaceRejected(s: string, i: nat)
    requires GetVariantName(s, i).Ok?
    requires GetVariantName(s, i).next < Span(s, i + 1, VariantNameChar)
    ensures GetVariantKey(s, i) == Fail(ExpectedCloseBracket, GetVariantName(s, i).next)
  {
    GetVariantNameSpec(s, i);
  }

  /** `p` is the dot of a `-?[0-9]+\.[0-9]` run at `i`: an optional `-`, at
      least one digit up to `p`, the dot, and a digit after it. */
  predicate DecimalPointAt(s: string, i: nat, p: nat) {
    var d := if Is(s, i, '-') then i + 1 else i;
    && d < p && p + 1 < |s| && s[p] == '.' && IsDigit(s[p + 1])
    && forall q :: d <= q < p ==> IsDigit(s[q])
  }

  /** numberRe requires a fractional part: a number that parses is an
      optional `-`, digits, a dot and digits, the longest such run, and its
      text is the source it spans. */
  lemma {:induction false} GetNumberSpec(s: string, i: nat)
    ensures GetNumber(s, i).Ok? ==>
      var r := GetNumber(s, i);
      var d := if s[i] == '-' then i + 1 else i;
      && r.value.val == s[i..r.next]
      && (exists p :: d < p < r.next - 1 && s[p] == '.'
            && (forall q :: d <= q < p ==> IsDigit(s[q]))
            && (forall q :: p < q < r.next ==> IsDigit(s[q])))
      && (r.next < |s| ==> !IsDigit(s[r.next]))
  {
    var r := GetNumber(s, i);
    if r.Ok? {
      var d := if s[i] == '-' then i + 1 else i;
      var p := Span(s, d, Digit);
      assert r.next == Span(s, p + 1, Digit) && d < p && Is(s, p, '.') && p + 1 < |s| && IsDigit(s[p + 1]);
      assert forall q :: d <= q < p ==> IsDigit(s[q]) by { SpanRun(s, d, Digit); }
      assert forall q :: p < q < r.next ==> IsDigit(s[q]) by { SpanRun(s, p + 1, Digit); }
      assert r.value.val == s[i..r.next] by { SliceIsSubsequence(s, i, r.next); }
    }
  }

  /** The converse of GetNumberSpec: an optional `-`, digits, a dot and a
      digit at the index are read as a number running to the end of the
      fraction's digits. */
  lemma {:induction false} GetNumberAccepts(s: string, i: nat, p: nat)
    requires DecimalPointAt(s, i, p)
    ensures GetNumber(s, i) == Ok(Num(s[i..Span(s, p + 1, Digit)]), Span(s, p + 1, Digit))
  {
    var d := if Is(s, i, '-') then i + 1 else i;
    SpanRun(s, d, Digit);
    assert Span(s, d, Digit) == p;
    SliceIsSubsequence(s, i, Span(s, p + 1, Digit));
  }

  /** An integer without a fractional part is not a number. */
  lemma IntegerIsNotANumber()
    ensures GetNumber("1", 0) == Fail(ExpectedNumber, 0)
    ensures GetVariantKey("1]", 0) == Fail(ExpectedNumber, 0)
  {
  }

  /** getString's loop runs to the end of a run of dots closed by a quote. */
  lemma {:induction false} StringStopOverDots(s: string, p: nat)
    requires p <= |s|
    requires Is(s, Span(s, p, Dot), '"')
    decreases |s| - p
    ensures StringStop(s, p) == Span(s, p, Dot)
  {
    if p < |s| && s[p] == '.' {
      StringStopOverDots(s, p + 1);
    }
  }

  /** stringRe admits only literal dots between the quotes, so a string
      literal consists of dots alone, and a quote, dots and a quote at the
      index are read as that string; an external (`$`) literal is never
      produced. */
  lemma {:induction false} GetLiteralSpec(s: string, i: nat)
    ensures GetLiteral(s, i).Ok? ==> !GetLiteral(s, i).value.Ext?
    ensures GetLiteral(s, i).Ok? && GetLiteral(s, i).value.Str? ==>
      var r := GetLiteral(s, i);
      && (forall c :: c in r.value.value ==> c == '.')
      && r.next == i + |r.value.value| + 2
    ensures StringReMatches(s, i) ==>
      var q := Span(s, i + 1, Dot);
      GetLiteral(s, i) == Ok(Str(s[i + 1..q]), q + 1)
  {
    if StringReMatches(s, i) {
      var q := Span(s, i + 1, Dot);
      StringStopOverDots(s, i + 1);
      SliceIsSubsequence(s, i + 1, q);
    }
    var r := GetLiteral(s, i);
    if r.Ok? && r.value.Str? {
      assert StringReMatches(s, i);
      var q := Span(s, i + 1, Dot);
      StringStopOverDots(s, i + 1);
      SpanRun(s, i + 1, Dot);
      SliceIsSubsequence(s, i + 1, q);
    }
  }

  // ------------------------------------------------------------- patterns

  /** What getComplexPattern can return: null, a non-empty bare string, or an
      element array with no empty or adjacent text runs holding between one
      and MAX_PLACEABLES placeables. */
  predicate PatternShape(p: Option<Pattern>) {
    match p
    case None => true
    case Some(PStr(t)) => t != ""
    case Some(PElems(es)) => TextRunsCoalesced(es) && 1 <= CountPlaces(es) <= MAX_PLACEABLES
  }

  /** The state getComplexPattern's loop keeps: `content` counts
      `placeables` placeables, from none to the maximum, is coalesced, and,
      when not empty, ends with the placeable most recently read. */
  predicate LoopShape(content: seq<Element>, n: nat) {
    && TextRunsCoalesced(content)
    && CountPlaces(content) == n
    && n <= MAX_PLACEABLES
    && (content == [] <==> n == 0)
    && (content != [] ==> content[|content| - 1].Place?)
  }

  lemma FinishShape(buf: string, content: seq<Element>, n: nat)
    requires LoopShape(content, n)
    ensures PatternShape(Finish(buf, content))
  {
    if content != [] && |buf| > 0 {
      var es := content + [Text(buf)];
      assert es[..|es| - 1] == content;
    }
  }

  /** Pushing the buffer and a placeable keeps the loop's state. */
  lemma PushPlaceableShape(buf: string, content: seq<Element>, n: nat, e: Expr)
    requires LoopShape(content, n) && n < MAX_PLACEABLES
    ensures LoopShape(Flush(buf, content) + [Place(e)], n + 1)
  {
    var c := Flush(buf, content);
    var es := c + [Place(e)];
    assert es[..|es| - 1] == c;
    if |buf| > 0 {
      assert c[..|c| - 1] == content;
    }
  }

  lemma {:induction false} ComplexLoopShape(s: string, i: nat, buf: string, content: seq<Element>, n: nat)
    requires LoopShape(content, n)
    decreases D(s, i), 7
    ensures ComplexLoop(s, i, buf, content, n).Ok? ==> PatternShape(ComplexLoop(s, i, buf, content, n).value)
  {
    if i >= |s| {
      FinishShape(buf, content, n);
    } else if s[i] == '\n' {
      var j := SkipIndent(s, i);
      var c := At(s, j);
      if c.Some? && IsPatternEnd(c.value) {
        FinishShape(buf, content, n);
      } else {
        ComplexStepShape(s, j, c, buf + NormalizeBreaks(Slice(s, i, j - 1)), content, n);
      }
    } else {
      ComplexStepShape(s, i, Some(s[i]), buf, content, n);
    }
  }

  lemma {:induction false} ComplexStepShape(s: string, i: nat, ch: Option<char>, buf: string, content: seq<Element>, n: nat)
    requires i <= |s| && LoopShape(content, n)
    decreases D(s, i), 6
    ensures ComplexStep(s, i, ch, buf, content, n).Ok? ==> PatternShape(ComplexStep(s, i, ch, buf, content, n).value)
  {
    if ch == Some('{') {
      BraceStepShape(s, i, buf, content, n);
    } else {
      TextStepShape(s, i, ch, buf, content, n);
    }
  }

  lemma {:induction false} BraceStepShape(s: string, i: nat, buf: string, content: seq<Element>, n: nat)
    requires i <= |s| && LoopShape(content, n)
    decreases D(s, i), 5
    ensures BraceStep(s, i, buf, content, n).Ok? ==> PatternShape(BraceStep(s, i, buf, content, n).value)
  {
    if n <= MAX_PLACEABLES - 1 {
      var p := GetPlaceable(s, i);
      if p.Ok? {
        var c := Flush(buf, content) + [Place(p.value)];
        assert BraceStep(s, i, buf, content, n) == AfterPlaceable(s, i, p, Flush(buf, content), n);
        assert AfterPlaceable(s, i, p, Flush(buf, content), n) == ComplexLoop(s, p.next + 1, "", c, n + 1);
        PushPlaceableShape(buf, content, n, p.value);
        ComplexLoopShape(s, p.next + 1, "", c, n + 1);
      }
    }
  }

  lemma {:induction false} TextStepShape(s: string, i: nat, ch: Option<char>, buf: string, content: seq<Element>, n: nat)
    requires i <= |s| && LoopShape(content, n)
    decreases D(s, i), 5
    ensures TextStep(s, i, ch, buf, content, n).Ok? ==> PatternShape(TextStep(s, i, ch, buf, content, n).value)
  {
    var ch2 := At(s, i + 1);
    var escaped := ch == Some('\\') && (ch2 == Some('"') || ch2 == Some('{') || ch2 == Some('\\'));
    var ch' := if escaped then ch2 else ch;
    var i' := if escaped then i + 1 else i;
    ComplexLoopShape(s, i' + 1, if ch'.Some? then buf + [ch'.value] else buf, content, n);
  }

  /** Every pattern getComplexPattern returns has PatternShape; in
      particular no more than MAX_PLACEABLES placeables are ever accepted. */
  lemma GetComplexPatternShape(s: string, i: nat)
    ensures GetComplexPattern(s, i).Ok? ==> PatternShape(GetComplexPattern(s, i).value)
  {
    ComplexLoopShape(s, i, "", [], 0);
  }

  /** getPattern's one-line fast path returns a non-empty string, so every
      pattern has PatternShape. */
  lemma GetPatternShape(s: string, i: nat)
    requires i <= |s|
    ensures GetPattern(s, i).Ok? ==> PatternShape(GetPattern(s, i).value)
  {
    var e := IndexOf(s, '\n', i);
    var eol: nat := if e == -1 then |s| else e;
    if i < eol {
      SliceIsSubsequence(s, i, eol);
    }
    GetComplexPatternShape(s, i);
    GetComplexPatternShape(s, SkipIndent(s, eol));
  }

  /** The 101st placeable is refused where its `{` stands. */
  lemma TooManyPlaceablesRefused(s: string, i: nat, buf: string, content: seq<Element>)
    requires i <= |s|
    ensures ComplexStep(s, i, Some('{'), buf, content, MAX_PLACEABLES) == Fail(TooManyPlaceables, i)
  {
  }

  /** `\"`, `\{` and `\\` contribute the escaped character alone; any other
      backslash is kept as text. */
  lemma EscapeSequences(s: string, i: nat, buf: string, content: seq<Element>, n: nat)
    requires i < |s| && s[i] == '\\'
    ensures i + 1 < |s| && s[i + 1] in {'"', '{', '\\'} ==>
      ComplexLoop(s, i, buf, content, n) == ComplexLoop(s, i + 2, buf + [s[i + 1]], content, n)
    ensures !(i + 1 < |s| && s[i + 1] in {'"', '{', '\\'}) ==>
      ComplexLoop(s, i, buf, content, n) == ComplexLoop(s, i + 1, buf + ['\\'], content, n)
  {
    assert ComplexLoop(s, i, buf, content, n) == TextStep(s, i, Some('\\'), buf, content, n);
  }

  // ------------------------------------------------------------ placeables

  /** An identifier naming a private message (a term): it starts with `-`. */
  predicate IsPrivateId(id: string) {
    |id| > 0 && id[0] == '-'
  }

  /** What may stand before `->`: anything but a message reference, a
      variant expression, or an attribute of a public message. */
  predicate ValidSelector(sel: Expr) {
    !sel.Ref? && !sel.VariantRef? && !(sel.Attr? && !IsPrivateId(sel.id))
  }

  /** A placeable getPlaceable accepts: no attribute of a private message
      interpolated directly, and a select expression with a selector has a
      valid selector and at least one variant. */
  predicate ValidPlaceable(e: Expr) {
    match e
    case Attr(id, _) => !IsPrivateId(id)
    case Select(Some(sel), vars, _) => ValidSelector(sel) && |vars| > 0
    case _ => true
  }

  /** The rules getPlaceable applies after its selector expression, in both
      directions: the selector is rejected exactly when `->` follows an
      invalid one, a private attribute exactly when it is closed directly by
      `}`, and `->` must be followed by a line break. */
  lemma SelectorPlaceableSpec(s: string, sel: Expr, m: nat)
    ensures var r := SelectorPlaceable(s, sel, m);
      r.Ok? ==>
        (Is(s, m, '}') && r.value == sel && !(sel.Attr? && IsPrivateId(sel.id)))
        || (r.value.Select? && r.value.exp == Some(sel) && |r.value.vars| > 0 && ValidSelector(sel))
    ensures var r := SelectorPlaceable(s, sel, m);
      (r.Fail? && r.at == m && r.err in {ReferenceAsSelector, VariantAsSelector, PublicAttributeAsSelector}) <==>
        !Is(s, m, '}') && Is(s, m, '-') && Is(s, m + 1, '>') && !ValidSelector(sel)
    ensures var r := SelectorPlaceable(s, sel, m);
      (r.Fail? && r.at == m && r.err == PrivateAttributeInterpolated) <==> Is(s, m, '}') && sel.Attr? && IsPrivateId(sel.id)
    ensures var r := SelectorPlaceable(s, sel, m);
      var a := SkipInlineWS(s, m + 2);
      !Is(s, m, '}') && Is(s, m, '-') && Is(s, m + 1, '>') && ValidSelector(sel) ==>
        (r == Fail(VariantsOnNewLine, a) <==> !Is(s, a, '\n'))
  {
  }

  /** Every placeable getPlaceable returns is valid. */
  lemma GetPlaceableValid(s: string, i: nat)
    ensures GetPlaceable(s, i).Ok? ==> ValidPlaceable(GetPlaceable(s, i).value)
  {
    var j := SkipIndent(s, i + 1);
    if !(Is(s, j, '*') || (Is(s, j, '[') && !Is(s, j + 1, ']'))) {
      var g := GetSelectorExpression(s, SkipInlineWS(s, i + 1));
      if g.Ok? {
        SelectorExpressionNotSelect(s, SkipInlineWS(s, i + 1));
        SelectorPlaceableSpec(s, g.value, SkipIndent(s, g.next));
      }
    }
  }

  /** A selector expression is never a select expression. */
  lemma SelectorExpressionNotSelect(s: string, i: nat)
    ensures GetSelectorExpression(s, i).Ok? ==> !GetSelectorExpression(s, i).value.Select?
  {
  }

  // -------------------------------------------------------------- variants

  /** A `*` or a `[` not followed by another `[`: where getVariants reads
      one more variant. */
  predicate VariantStart(s: string, k: int) {
    Is(s, k, '*') || (Is(s, k, '[') && !Is(s, k + 1, '['))
  }

  /** The variant read at the start `p` of a turn: after the `*`, if any. */
  function VariantAt(s: string, p: nat): Outcome<Variant>
    requires p < |s|
  {
    GetVariant(s, if s[p] == '*' then p + 1 else p)
  }

  /** The positions at which getVariants' loop, entered at `i`, starts a
      turn, in order: each next one is past the indent after the variant
      read before it. A turn whose variant throws is the last. */
  function VariantStarts(s: string, i: nat): (ps: seq<nat>)
    decreases D(s, i)
    ensures forall k :: 0 <= k < |ps| ==> ps[k] < |s| && VariantStart(s, ps[k])
  {
    if i >= |s| || !VariantStart(s, i) then []
    else match VariantAt(s, i)
      case Fail(_, _) => [i]
      case Ok(_, m) => [i] + VariantStarts(s, SkipIndent(s, m))
  }

  /** The variants read at the starts `ps`, in order; none when one of
      them throws. */
  function VariantsRead(s: string, ps: seq<nat>): Option<seq<Variant>>
    requires forall k :: 0 <= k < |ps| ==> ps[k] < |s|
  {
    if ps == [] then Some([])
    else match VariantAt(s, ps[0])
      case Fail(_, _) => None
      case Ok(v, _) =>
        match VariantsRead(s, ps[1..])
        case None => None
        case Some(vs) => Some([v] + vs)
  }

  /** `vs` is `vars` followed by the variant read at each start of `ps`,
      every one of which is read without error. */
  predicate AppendsVariants(s: string, vars: seq<Variant>, ps: seq<nat>, vs: seq<Variant>)
    requires forall k :: 0 <= k < |ps| ==> ps[k] < |s|
  {
    vars <= vs && VariantsRead(s, ps) == Some(vs[|vars|..])
  }

  /** The default index `d` after the turns at `ps`, numbered from `base`:
      the carried-in `def` when no turn starts with `*`; otherwise the
      number of the last turn that does. */
  predicate DefaultRule(s: string, base: nat, def: Option<nat>, ps: seq<nat>, d: Option<nat>) {
    && ((forall k :: 0 <= k < |ps| ==> !Is(s, ps[k], '*')) ==> d == def)
    && ((exists k :: 0 <= k < |ps| && Is(s, ps[k], '*')) ==>
          && d.Some? && base <= d.value < base + |ps|
          && Is(s, ps[d.value - base], '*')
          && forall k :: d.value - base < k < |ps| ==> !Is(s, ps[k], '*'))
  }

  /** What VariantsLoopSpec promises about a result `r` of the loop
      entered with `vars` and `def`, whose turns start at `ps`. */
  predicate VariantsExtend(s: string, vars: seq<Variant>, def: Option<nat>, r: Outcome<(seq<Variant>, Option<nat>)>, ps: seq<nat>)
    requires forall k :: 0 <= k < |ps| ==> ps[k] < |s|
  {
    r.Ok? ==>
      && AppendsVariants(s, vars, ps, r.value.0)
      && DefaultRule(s, |vars|, def, ps, r.value.1)
      && (r.value.1.Some? ==> r.value.1.value < |r.value.0|)
      && !VariantStart(s, r.next)
  }

  /** getVariants appends, after those already read, the variant of each
      turn in source order. Its default index is the number of the last
      turn that starts with `*`, and the carried-in one (none, for
      getVariants itself) when no turn does. It stops where no variant
      starts. */
  lemma {:induction false} VariantsLoopSpec(s: string, i: nat, vars: seq<Variant>, def: Option<nat>)
    requires def.Some? ==> def.value < |vars|
    decreases D(s, i)
    ensures VariantsExtend(s, vars, def, VariantsLoop(s, i, vars, def), VariantStarts(s, i))
  {
    if i < |s| && VariantStart(s, i) {
      var def' := if s[i] == '*' then Some(|vars|) else def;
      var v := VariantAt(s, i);
      if v.Ok? {
        var j := SkipIndent(s, v.next);
        var rest := VariantsLoop(s, j, vars + [v.value], def');
        assert VariantsLoop(s, i, vars, def) == rest;
        assert VariantStarts(s, i) == [i] + VariantStarts(s, j);
        VariantsLoopSpec(s, j, vars + [v.value], def');
        TurnStep(s, i, vars, def, VariantStarts(s, j), rest);
      }
    } else {
      assert VariantStarts(s, i) == [];
      assert vars[|vars|..] == [];
    }
  }

  /** VariantsLoopSpec's step: what the loop promises after the turn at
      `i` holds, with that turn added, of the whole run. */
  lemma {:induction false} TurnStep(s: string, i: nat, vars: seq<Variant>, def: Option<nat>, ps: seq<nat>, r: Outcome<(seq<Variant>, Option<nat>)>)
    requires i < |s| && VariantAt(s, i).Ok? && (def.Some? ==> def.value < |vars|)
    requires forall k :: 0 <= k < |ps| ==> ps[k] < |s|
    requires VariantsExtend(s, vars + [VariantAt(s, i).value], if s[i] == '*' then Some(|vars|) else def, r, ps)
    ensures VariantsExtend(s, vars, def, r, [i] + ps)
  {
    if r.Ok? {
      AppendStep(s, vars, i, ps, r.value.0);
      DefaultStep(s, |vars|, def, i, ps, r.value.1);
    }
  }

  /** VariantsLoopSpec's step for the variants: the one read at `i` comes
      right after `vars`. */
  lemma {:induction false} AppendStep(s: string, vars: seq<Variant>, i: nat, ps: seq<nat>, vs: seq<Variant>)
    requires i < |s| && VariantAt(s, i).Ok? && forall k :: 0 <= k < |ps| ==> ps[k] < |s|
    requires AppendsVariants(s, vars + [VariantAt(s, i).value], ps, vs)
    ensures AppendsVariants(s, vars, [i] + ps, vs)
  {
    var v := VariantAt(s, i).value;
    assert ([i] + ps)[1..] == ps;
    assert vs[|vars|..] == [v] + vs[|vars| + 1..];
  }

  /** VariantsLoopSpec's step for the default index: a `*` at `i` sets it
      to `base` unless a later turn starts with `*`, too. */
  lemma {:induction false} DefaultStep(s: string, base: nat, def: Option<nat>, i: nat, ps: seq<nat>, d: Option<nat>)
    requires i < |s| && (def.Some? ==> def.value < base)
    requires DefaultRule(s, base + 1, if s[i] == '*' then Some(base) else def, ps, d)
    ensures DefaultRule(s, base, def, [i] + ps, d)
  {
    var ps' := [i] + ps;
    if exists k :: 0 <= k < |ps| && Is(s, ps[k], '*') {
      var k0 :| 0 <= k0 < |ps| && Is(s, ps[k0], '*');
      assert ps'[k0 + 1] == ps[k0];
      assert ps'[d.value - base] == ps[d.value - base - 1];
      forall k | d.value - base < k < |ps'|
        ensures !Is(s, ps'[k], '*')
      {
        assert ps'[k] == ps[k - 1];
      }
    } else {
      forall k | 0 < k < |ps'|
        ensures !Is(s, ps'[k], '*')
      {
        assert ps'[k] == ps[k - 1];
      }
      assert ps'[0] == i;
    }
  }

  // ------------------------------------------------------------- call args

  /** After the first expression of an argument: only a message reference
      followed by `:` makes a named argument, whose value must be a string
      or number literal; when it is not, the error points just past the
      last `:` before the value's end, which need not be the `:` that
      started the value. */
  lemma NamedOrPositionalSpec(s: string, exp: Expr, k: nat)
    ensures var r := NamedOrPositional(s, exp, k);
      r.Ok? && r.value.Named? ==>
        exp.Ref? && r.value.name == exp.name && (r.value.val.Str? || r.value.val.Num?)
          && Is(s, SkipInlineWS(s, k), ':')
    ensures var r := NamedOrPositional(s, exp, k);
      r.Ok? && r.value.Positional? ==> r.value.exp == exp && (exp.Ref? ==> !Is(s, r.next, ':'))
  {
  }

  /** A named argument whose value is not a literal is refused just past
      the last `:` at or before the value's end (`lastIndexOf(':', index)`),
      which need not be the `:` that started the value. */
  lemma NamedValueRefused(s: string, exp: Expr, k: nat)
    requires exp.Ref? && Is(s, SkipInlineWS(s, k), ':')
    requires var v := GetSelectorExpression(s, SkipInlineWS(s, SkipInlineWS(s, k) + 1));
      v.Ok? && !(v.value.Str? || v.value.Num?)
    ensures var r := NamedOrPositional(s, exp, k);
      var v := GetSelectorExpression(s, SkipInlineWS(s, SkipInlineWS(s, k) + 1));
      && r.Fail? && r.err == ExpectedStringOrNumber
      && SkipInlineWS(s, k) < r.at <= v.next + 1 && s[r.at - 1] == ':'
      && (forall p :: r.at <= p <= v.next && p < |s| ==> s[p] != ':')
  {
    var v := GetSelectorExpression(s, SkipInlineWS(s, SkipInlineWS(s, k) + 1));
    LastIndexOfLast(s, ':', v.next);
  }

  // ------------------------------------------------------ messages, resource

  /** The storing rule: a message with a plain string value and no
      attributes is stored as that bare string; one with neither a value nor
      attributes is refused; everything else is an object carrying both. */
  lemma StoreSpec(id: string, val: Option<Pattern>, attrs: Option<map<string, AttrValue>>, k: nat)
    ensures var r := Store(id, val, attrs, k);
      r.Fail? <==> val.None? && attrs.None?
    ensures var r := Store(id, val, attrs, k);
      r.Fail? ==> r == Fail(ExpectedValueOrAttribute, k)
    ensures var r := Store(id, val, attrs, k);
      r.Ok? ==> r.value.0 == id && r.next == k
    ensures var r := Store(id, val, attrs, k);
      r.Ok? && r.value.1.Bare? <==> attrs.None? && val.Some? && val.value.PStr?
    ensures var r := Store(id, val, attrs, k);
      r.Ok? && r.value.1.Bare? ==> val == Some(PStr(r.value.1.s))
    ensures var r := Store(id, val, attrs, k);
      r.Ok? && r.value.1.Obj? ==> r.value.1.val == val && r.value.1.attrs == attrs
  {
  }

  /** getMessage stores under the message's identifier; attributes are
      present exactly when a `.` follows the value, and then at least one
      was read. */
  lemma {:induction false} GetMessageSpec(s: string, i: nat)
    ensures var r := GetMessage(s, i);
      r.Ok? ==> GetIdentifier(s, i).Ok? && r.value.0 == GetIdentifier(s, i).value
    ensures var r := GetMessage(s, i);
      r.Ok? && r.value.1.Obj? && r.value.1.attrs.Some? ==> |r.value.1.attrs.value| > 0
  {
    var id := GetIdentifier(s, i);
    if id.Ok? {
      var j := SkipInlineWS(s, id.next);
      var v := GetPattern(s, SkipInlineWS(s, if Is(s, j, '=') then j + 1 else j));
      if v.Ok? {
        if Is(s, v.next, '.') {
          var a := AttributesLoop(s, v.next, map[]);
          if a.Ok? {
            AttributesLoopGrows(s, v.next, map[]);
            assert GetMessage(s, i) == Store(id.value, v.value, Some(a.value), a.next);
            StoreSpec(id.value, v.value, Some(a.value), a.next);
          }
        } else {
          assert GetMessage(s, i) == Store(id.value, v.value, None, v.next);
          StoreSpec(id.value, v.value, None, v.next);
        }
      }
    }
  }

  /** The attribute loop keeps every key it starts with, and a `.` at the
      start adds at least one. */
  lemma {:induction false} AttributesLoopGrows(s: string, i: nat, attrs: map<string, AttrValue>)
    decreases D(s, i)
    ensures var r := AttributesLoop(s, i, attrs);
      r.Ok? ==> attrs.Keys <= r.value.Keys && (Is(s, i, '.') ==> |r.value| > 0)
  {
    if i < |s| && s[i] == '.' {
      var a := GetAttribute(s, i + 1);
      if a.Ok? {
        var attrs' := attrs[a.value.0 := a.value.1];
        assert AttributesLoop(s, i, attrs) == AttributesLoop(s, a.next, attrs');
        AttributesLoopGrows(s, a.next, attrs');
        assert a.value.0 in attrs'.Keys;
      }
    }
  }

  /** The offset `off` holds a message that parses and is named `key`. */
  predicate Writes(s: string, off: nat, key: string) {
    Names(GetMessage(s, off), key)
  }

  predicate Names(o: Outcome<(string, Entry)>, key: string) {
    o.Ok? && o.value.0 == key
  }

  /** The `entries` object after recording a sequence of getMessage
      outcomes in order: the same fold as `Collect`, over the outcomes
      themselves. */
  function Gather(outs: seq<Outcome<(string, Entry)>>): map<string, Entry> {
    if outs == [] then map[]
    else
      var m := Gather(outs[..|outs| - 1]);
      match outs[|outs| - 1]
      case Ok(p, _) => m[p.0 := p.1]
      case Fail(_, _) => m
  }

  /** The getMessage outcome at each offset. */
  function Parses(s: string, offs: seq<nat>): (outs: seq<Outcome<(string, Entry)>>)
    ensures |outs| == |offs|
  {
    if offs == [] then [] else Parses(s, offs[..|offs| - 1]) + [GetMessage(s, offs[|offs| - 1])]
  }

  lemma {:induction false} CollectIsGather(s: string, offs: seq<nat>)
    decreases |offs|
    ensures Collect(s, offs) == Gather(Parses(s, offs))
  {
    if offs != [] {
      var n := |offs| - 1;
      CollectIsGather(s, offs[..n]);
      assert Parses(s, offs)[..n] == Parses(s, offs[..n]);
    }
  }

  lemma {:induction false} ParsesAt(s: string, offs: seq<nat>, j: nat)
    requires j < |offs|
    decreases |offs|
    ensures Parses(s, offs)[j] == GetMessage(s, offs[j])
  {
    var n := |offs| - 1;
    if j < n {
      ParsesAt(s, offs[..n], j);
    }
  }

  /** Last write wins, over the outcomes. */
  lemma {:induction false} GatherSpec(outs: seq<Outcome<(string, Entry)>>, key: string)
    decreases |outs|
    ensures key in Gather(outs) <==> exists j :: 0 <= j < |outs| && Names(outs[j], key)
    ensures key in Gather(outs) ==>
      exists j :: 0 <= j < |outs| && Names(outs[j], key)
        && Gather(outs)[key] == outs[j].value.1
        && forall j' :: j < j' < |outs| ==> !Names(outs[j'], key)
  {
    if outs != [] {
      var n := |outs| - 1;
      var init := outs[..n];
      GatherSpec(init, key);
      assert forall j :: 0 <= j < n ==> init[j] == outs[j];
      if Names(outs[n], key) {
        assert Gather(outs)[key] == outs[n].value.1;
      } else if key in Gather(init) {
        var j :| 0 <= j < n && Names(init[j], key)
          && Gather(init)[key] == init[j].value.1
          && forall j' :: j < j' < n ==> !Names(init[j'], key);
        assert Names(outs[j], key);
      }
    }
  }

  /** getResource's `entries`: a key is present exactly when some offset
      holds a message of that name, and its entry is the one parsed at the
      last such offset (a later message overwrites an earlier one). */
  lemma CollectSpec(s: string, offs: seq<nat>, key: string)
    ensures key in Collect(s, offs) <==> exists j :: 0 <= j < |offs| && Writes(s, offs[j], key)
    ensures key in Collect(s, offs) ==>
      exists j :: 0 <= j < |offs| && Writes(s, offs[j], key)
        && Collect(s, offs)[key] == GetMessage(s, offs[j]).value.1
        && forall j' :: j < j' < |offs| ==> !Writes(s, offs[j'], key)
  {
    CollectIsGather(s, offs);
    var outs := Parses(s, offs);
    GatherSpec(outs, key);
    if key in Collect(s, offs) {
      var j :| 0 <= j < |outs| && Names(outs[j], key)
        && Gather(outs)[key] == outs[j].value.1
        && forall j' :: j < j' < |outs| ==> !Names(outs[j'], key);
      ParsesAt(s, offs, j);
      forall j' | j < j' < |offs| ensures !Writes(s, offs[j'], key) {
        ParsesAt(s, offs, j');
      }
    } else {
      forall j | 0 <= j < |offs| ensures !Writes(s, offs[j], key) {
        ParsesAt(s, offs, j);
      }
    }
  }

  /** getResource never reports an error, and its entries are the messages
      at the message starts, the last one of each name winning. */
  lemma GetResourceSpec(s: string, key: string)
    ensures GetResource(s).1 == []
    ensures var offs := EntryOffsets.Offsets(s, 0);
      key in GetResource(s).0 <==> exists j :: 0 <= j < |offs| && Writes(s, offs[j], key)
  {
    assert GetResource(s).0 == Collect(s, EntryOffsets.Offsets(s, 0));
    CollectSpec(s, EntryOffsets.Offsets(s, 0), key);
  }
}

// What lexEntry promises: the first pattern in table order wins, lexemes
// tile the input from the start index to the first place nothing matches,
// IDENTIFIER is shadowed by ENTRY_START, and the capture groups have the
// shapes their patterns give them.

module LexerProperties {
  import opened Text
  import opened Lexer

  lemma RankOfEntry(t: nat)
    requires t < |ENTRY_TOKENS|
    ensures Rank(ENTRY_TOKENS[t]) == t
  {
    if t == 0 {} else if t == 1 {} else if t == 2 {} else if t == 3 {} else if t == 4 {}
    else if t == 5 {} else if t == 6 {} else if t == 7 {} else if t == 8 {} else {}
  }

  /** The inner loop from position `t`: it answers the first token at or
      after `t` whose pattern matches, with that pattern's match, and every
      token it passed over fails at `i`; when it answers nothing, every
      remaining token fails. */
  lemma {:induction false} FirstMatchFrom(s: string, i: nat, t: nat)
    decreases |ENTRY_TOKENS| - t
    ensures var r := FirstMatch(s, i, t);
      r.Some? ==>
        && t <= Rank(r.value.0)
        && Match(r.value.0, s, i) == Some(r.value.1)
        && forall u :: t <= u < Rank(r.value.0) ==> Match(ENTRY_TOKENS[u], s, i).None?
    ensures FirstMatch(s, i, t).None? ==>
      forall u :: t <= u < |ENTRY_TOKENS| ==> Match(ENTRY_TOKENS[u], s, i).None?
  {
    if t < |ENTRY_TOKENS| {
      RankOfEntry(t);
      if Match(ENTRY_TOKENS[t], s, i).None? {
        FirstMatchFrom(s, i, t + 1);
      }
    }
  }

  /** Priority: the token chosen at `i` is the first one in ENTRY_TOKENS
      whose pattern matches at `i`, and lexing stops exactly where no
      pattern matches. */
  lemma FirstMatchWins(s: string, i: nat)
    ensures var r := FirstMatch(s, i, 0);
      r.Some? ==>
        && Match(r.value.0, s, i) == Some(r.value.1)
        && forall u :: 0 <= u < Rank(r.value.0) ==> Match(ENTRY_TOKENS[u], s, i).None?
    ensures FirstMatch(s, i, 0).None? <==> forall t: Token :: Match(t, s, i).None?
  {
    FirstMatchFrom(s, i, 0);
    if FirstMatch(s, i, 0).None? {
      forall t: Token ensures Match(t, s, i).None? {
        assert ENTRY_TOKENS[Rank(t)] == t;
      }
    }
  }

  /** IDENTIFIER can never be yielded: wherever its pattern matches, the
      pattern of ENTRY_START, tried earlier, matches too. */
  lemma IdentifierShadowed(s: string, i: nat)
    ensures FirstMatch(s, i, 0).Some? ==> FirstMatch(s, i, 0).value.0 != Identifier
  {
    FirstMatchFrom(s, i, 0);
    if Match(Identifier, s, i).Some? {
      assert Match(EntryStart, s, i).Some?;
      assert Match(ENTRY_TOKENS[5], s, i).Some?;
    }
  }

  /** The position where lexing from `i` stops once `ls` has been yielded. */
  function StopAt(i: nat, ls: seq<Lexed>): nat {
    if ls == [] then i else ls[|ls| - 1].end
  }

  /** The lexemes cover the source without gaps from `i`: the first starts
      at `i`, each starts where the previous one ended, each covers at least
      one character and is the first-matching token there, and at the end
      no pattern matches. */
  predicate Tiles(s: string, i: nat, ls: seq<Lexed>) {
    && (ls != [] ==> ls[0].start == i)
    && (forall k :: 0 <= k < |ls| - 1 ==> ls[k].end == ls[k + 1].start)
    && (forall k :: 0 <= k < |ls| ==> ls[k].start < ls[k].end <= |s|)
    && (forall k :: 0 <= k < |ls| ==>
          FirstMatch(s, ls[k].start, 0) == Some((ls[k].lexeme.token, Hit(ls[k].end, ls[k].lexeme.values))))
    && FirstMatch(s, StopAt(i, ls), 0).None?
  }

  lemma {:induction false} LexTiles(s: string, i: nat)
    decreases |s| - i
    ensures Tiles(s, i, Lex(s, i))
  {
    var r := FirstMatch(s, i, 0);
    if r.Some? {
      var (t, h) := r.value;
      var rest := Lex(s, h.end);
      LexTiles(s, h.end);
      var ls := Lex(s, i);
      assert ls == [Lexed(Lexeme(t, h.values), i, h.end)] + rest;
      assert forall k :: 1 <= k < |ls| ==> ls[k] == rest[k - 1];
      assert StopAt(i, ls) == StopAt(h.end, rest);
    }
  }

  /** `-?[a-zA-Z][\w-]*` as a whole string (without the `-` when `minus`
      is false). */
  predicate IsIdentifier(id: string, minus: bool) {
    var j := if minus && |id| > 0 && id[0] == '-' then 1 else 0;
    j < |id| && IsAsciiLetter(id[j]) && forall p :: j < p < |id| ==> InClass(id[p], IdentChar)
  }

  lemma IdEndSpec(s: string, i: nat, minus: bool)
    ensures var r := IdEnd(s, i, minus);
      r.Some? ==> IsIdentifier(s[i..r.value], minus) && (r.value < |s| ==> !InClass(s[r.value], IdentChar))
    ensures IdEnd(s, i, minus).None? <==>
      !((i < |s| && IsAsciiLetter(s[i])) || (minus && Is(s, i, '-') && i + 1 < |s| && IsAsciiLetter(s[i + 1])))
  {
    var j := if minus && Is(s, i, '-') && i + 1 < |s| && IsAsciiLetter(s[i + 1]) then i + 1 else i;
    if j < |s| && IsAsciiLetter(s[j]) {
      SpanRun(s, j + 1, IdentChar);
    }
  }

  /** The capture groups: none for the three white space tokens; the
      identifier and a value of one or more characters other than white
      space and braces for the one-line tokens; the identifier for the
      start tokens; the whole match for STRING and NUMBER. */
  lemma ValuesShape(t: Token, s: string, i: nat)
    ensures var r := Match(t, s, i);
      r.Some? && t in {InlineWhitespace, BreakIndent, BreakLine} ==> r.value.values == []
    ensures var r := Match(t, s, i);
      r.Some? && t in {EntryOneLine, AttributeOneLine} ==>
        && |r.value.values| == 2
        && IsIdentifier(r.value.values[0], true)
        && r.value.values[1] != ""
        && forall c :: c in r.value.values[1] ==> !IsWhitespace(c) && c != '{' && c != '}'
    ensures var r := Match(t, s, i);
      r.Some? && t in {EntryStart, AttributeStart, Identifier} ==>
        |r.value.values| == 1 && IsIdentifier(r.value.values[0], t != AttributeStart)
    ensures var r := Match(t, s, i);
      r.Some? && t in {Identifier, StringLit, Number} ==> r.value.values == [s[i..r.value.end]]
  {
    match t
    case EntryOneLine => OneLineValue(s, i);
    case AttributeOneLine => OneLineValue(s, i + 1);
    case EntryStart => IdEndSpec(s, i, true);
    case AttributeStart => IdEndSpec(s, i + 1, false);
    case Identifier => IdEndSpec(s, i, true);
    case _ =>
  }

  lemma OneLineValue(s: string, j: nat)
    ensures var r := MatchOneLine(s, j);
      r.Some? ==>
        && |r.value.values| == 2
        && IsIdentifier(r.value.values[0], true)
        && r.value.values[1] != ""
        && forall c :: c in r.value.values[1] ==> !IsWhitespace(c) && c != '{' && c != '}'
  {
    IdEndSpec(s, j, true);
    var e := IdEnd(s, j, true);
    if e.Some? && OneLineTail(s, e.value).Some? {
      var (w2, v, _) := OneLineTail(s, e.value).value;
      SpanRun(s, w2, ValueChar);
      forall c | c in s[w2..v] ensures !IsWhitespace(c) && c != '{' && c != '}' {
        var p :| 0 <= p < v - w2 && s[w2..v][p] == c;
        assert InClass(s[w2 + p], ValueChar);
      }
    }
  }

  /** BREAK_INDENT ends just after the last space or tab of the white space
      run that follows its line feed, and matches only when that run holds
      one. */
  lemma BreakIndentSpec(s: string, i: nat)
    requires Is(s, i, '\n')
    ensures var r := MatchBreakIndent(s, i);
      var w := Span(s, i + 1, Whitespace);
      && (r.Some? <==> exists p :: i + 1 <= p < w && IsInlineSpace(s[p]))
      && (r.Some? ==>
            && IsInlineSpace(s[r.value.end - 1])
            && (forall p :: i + 1 <= p < r.value.end ==> IsWhitespace(s[p]))
            && (forall p :: r.value.end <= p < w ==> !IsInlineSpace(s[p])))
  {
    var w := Span(s, i + 1, Whitespace);
    SpanRun(s, i + 1, Whitespace);
    LastInlineSpaceIsLast(s, i + 1, w);
  }

  lemma {:induction false} LastInlineSpaceIsLast(s: string, a: nat, b: nat)
    requires b <= |s|
    decreases b
    ensures var q := LastInlineSpace(s, a, b);
      forall p :: (if q == -1 then a else q + 1) <= p < b ==> !IsInlineSpace(s[p])
  {
    if a < b && !IsInlineSpace(s[b - 1]) {
      LastInlineSpaceIsLast(s, a, b - 1);
    }
  }

  /** STRING matches from a quote to the next quote on the same line, and
      only when there is one. */
  lemma {:induction false} StringCloseSpec(s: string, j: nat)
    decreases |s| - j
    ensures var q := StringClose(s, j);
      q != -1 ==> forall p :: j <= p < q ==> s[p] != '"' && !IsLineTerminator(s[p])
    ensures StringClose(s, j) == -1 ==>
      forall q :: j <= q < |s| && s[q] == '"' ==> exists p :: j <= p < q && IsLineTerminator(s[p])
  {
    if j < |s| && s[j] != '"' && !IsLineTerminator(s[j]) {
      StringCloseSpec(s, j + 1);
      if StringClose(s, j) == -1 {
        forall q | j <= q < |s| && s[q] == '"' ensures exists p :: j <= p < q && IsLineTerminator(s[p]) {
          assert q != j;
          var p :| j + 1 <= p < q && IsLineTerminator(s[p]);
        }
      }
    }
  }
}

// What the serializer's output looks like, stated line by line: indent
// keeps the first line and indents every other one by four spaces, comments
// keep their lines (and can be read back), values, attributes and variants
// indent their continuation lines, and serialization fails exactly on the
// trees it has no printer for.

module SerializerProperties {
  import opened Text
  import opened SyntaxAst
  import opened Serializer

  function Lines(s: string): seq<string> {
    Split(s, '\n')
  }

  /** `pad` put in front of every line. */
  function PadLines(pad: string, ls: seq<string>): (r: seq<string>)
    ensures |r| == |ls| && forall k :: 0 <= k < |ls| ==> r[k] == pad + ls[k]
  {
    if ls == [] then [] else [pad + ls[0]] + PadLines(pad, ls[1..])
  }

  /** A line that starts with at least `n` spaces. */
  predicate Indented(line: string, n: nat) {
    n <= |line| && forall j :: 0 <= j < n ==> line[j] == ' '
  }

  /** Every line of `s` after the first starts with `n` spaces. */
  predicate LinesIndented(s: string, n: nat) {
    forall k :: 1 <= k < |Lines(s)| ==> Indented(Lines(s)[k], n)
  }

  lemma {:induction false} JoinPadLines(t: seq<string>)
    requires t != []
    decreases |t|
    ensures Join(PadLines("    ", t), "\n") == "    " + Join(t, "\n    ")
  {
    if |t| > 1 {
      var u := t[1..];
      JoinPadLines(u);
      assert t == [t[0]] + u;
      assert PadLines("    ", t) == ["    " + t[0]] + PadLines("    ", u);
      JoinCons("    " + t[0], PadLines("    ", u), "\n");
      JoinCons(t[0], u, "\n    ");
      assert ("    " + t[0]) + "\n" + ("    " + Join(u, "\n    ")) == "    " + (t[0] + "\n    " + Join(u, "\n    "));
    }
  }

  lemma {:induction false} BreakIndent(a: string, j: string)
    ensures a + "\n" + ("    " + j) == a + "\n    " + j
  {
    Openers();
  }

  /** Joining with a line feed and four spaces is joining with a line feed
      after padding every piece but the first. */
  lemma {:induction false} IndentJoin(ls: seq<string>)
    requires |ls| >= 1
    ensures Join(ls, "\n    ") == Join([ls[0]] + PadLines("    ", ls[1..]), "\n")
  {
    var a, t := ls[0], ls[1..];
    if t != [] {
      var j := Join(t, "\n    ");
      assert Join(ls, "\n    ") == a + "\n    " + j by {
        assert ls == [a] + t;
        JoinCons(a, t, "\n    ");
      }
      assert Join([a] + PadLines("    ", t), "\n") == a + "\n" + ("    " + j) by {
        JoinPadLines(t);
        JoinCons(a, PadLines("    ", t), "\n");
      }
      BreakIndent(a, j);
    } else {
      assert ls == [a];
      assert PadLines("    ", t) == [];
    }
  }

  lemma {:induction false} PaddedFree(ls: seq<string>)
    requires |ls| >= 1 && forall k :: 0 <= k < |ls| ==> '\n' !in ls[k]
    ensures var out := [ls[0]] + PadLines("    ", ls[1..]);
      forall k :: 0 <= k < |out| ==> '\n' !in out[k]
  {
    var out := [ls[0]] + PadLines("    ", ls[1..]);
    forall k | 0 <= k < |out| ensures '\n' !in out[k] {
      if k > 0 {
        assert out[k] == "    " + ls[k];
      }
    }
  }

  /** `indent` keeps the first line and puts four spaces in front of every
      other line. */
  lemma {:induction false} IndentLines(s: string)
    ensures var ls := Lines(s); Lines(Indent(s)) == [ls[0]] + PadLines("    ", ls[1..])
  {
    var ls := Split(s, '\n');
    SplitPiecesFree(s, '\n');
    PaddedFree(ls);
    IndentJoin(ls);
    assert "\n" == ['\n'];
    SplitJoin([ls[0]] + PadLines("    ", ls[1..]), '\n');
  }

  /** `indent` adds four spaces to the indentation of every line after the
      first. */
  lemma {:induction false} IndentDeepens(s: string, n: nat)
    requires LinesIndented(s, n)
    ensures LinesIndented(Indent(s), n + 4)
  {
    IndentLines(s);
    var ls := Lines(s);
    forall k | 1 <= k < |Lines(Indent(s))| ensures Indented(Lines(Indent(s))[k], n + 4) {
      assert Lines(Indent(s))[k] == "    " + ls[k];
    }
  }

  /** Any text, once indented, has its lines after the first indented by
      four spaces. */
  lemma {:induction false} IndentIndents(s: string)
    ensures LinesIndented(Indent(s), 4)
  {
    IndentDeepens(s, 0);
  }

  /** The first line survives `indent`. */
  lemma {:induction false} IndentFirstLine(s: string)
    ensures Lines(Indent(s))[0] == Lines(s)[0]
  {
    IndentLines(s);
  }

  /** `indent` adds four characters per line feed, and leaves text
      without a line feed as it is. */
  lemma {:induction false} IndentCounts(s: string)
    ensures |Indent(s)| == |s| + 4 * Count(s, '\n')
    ensures '\n' !in s ==> Indent(s) == s
  {
    ReplaceCharLength(s, '\n', "\n    ");
    if '\n' !in s {
      ReplaceAbsent(s, '\n', "\n    ");
    }
  }

  /** Putting a line feed in front adds an empty first line. */
  lemma {:induction false} LinesAfterNewline(t: string)
    ensures Lines("\n" + t) == [""] + Lines(t)
  {
    assert ("\n" + t)[1..] == t;
  }

  /** Putting text without a line feed in front extends the first line. */
  lemma {:induction false} LinesAfterText(x: string, t: string)
    requires '\n' !in x
    ensures Lines(x + t) == [x + Lines(t)[0]] + Lines(t)[1..]
  {
    SplitPrepend(x, t, '\n');
  }

  /** The comment marker taken off again. */
  function Uncomment(sigil: string, line: string): string {
    if |line| > |sigil| then line[|sigil| + 1..] else ""
  }

  function UncommentLines(sigil: string, lines: seq<string>): (r: seq<string>)
    ensures |r| == |lines| && forall k :: 0 <= k < |lines| ==> r[k] == Uncomment(sigil, lines[k])
  {
    if lines == [] then [] else [Uncomment(sigil, lines[0])] + UncommentLines(sigil, lines[1..])
  }

  /** A comment has one line per line of its content, each the marker
      alone (for an empty line) or the marker, a space and the line; taking
      the markers off gives the content back. */
  lemma {:induction false} CommentRoundTrip(sigil: string, content: string)
    requires '\n' !in sigil
    ensures Lines(CommentText(sigil, content)) == CommentLines(sigil, Lines(content))
    ensures Join(UncommentLines(sigil, Lines(CommentText(sigil, content))), "\n") == content
  {
    var ls := Lines(content);
    var cs := CommentLines(sigil, ls);
    SplitPiecesFree(content, '\n');
    forall k | 0 <= k < |cs| ensures '\n' !in cs[k] {
      if |ls[k]| > 0 {
        assert cs[k] == sigil + " " + ls[k];
      }
    }
    assert "\n" == ['\n'];
    SplitJoin(cs, '\n');
    var back := UncommentLines(sigil, cs);
    forall k | 0 <= k < |ls| ensures back[k] == ls[k] {
      if |ls[k]| > 0 {
        assert cs[k] == sigil + " " + ls[k];
        assert cs[k][|sigil| + 1..] == ls[k];
      }
    }
    assert back == ls;
    JoinSplit(content, '\n', "\n");
    ReplaceSelf(content, '\n');
  }

  /** The three comment printers, with `#`, `##` and `###`. */
  lemma {:induction false} CommentsRoundTrip(content: string)
    ensures Lines(SerializeComment(content)) == CommentLines("#", Lines(content))
    ensures Lines(SerializeGroupComment(content)) == CommentLines("##", Lines(content))
    ensures Lines(SerializeResourceComment(content)) == CommentLines("###", Lines(content))
    ensures Join(UncommentLines("#", Lines(SerializeComment(content))), "\n") == content
    ensures Join(UncommentLines("##", Lines(SerializeGroupComment(content))), "\n") == content
    ensures Join(UncommentLines("###", Lines(SerializeResourceComment(content))), "\n") == content
  {
    CommentRoundTrip("#", content);
    CommentRoundTrip("##", content);
    CommentRoundTrip("###", content);
  }

  /** The two forms `serializeValue` chooses between, on any text. */
  lemma {:induction false} ValueForms(multi: bool, t: string)
    ensures var r := (if multi then "\n    " else " ") + Indent(t);
      && |r| > 0
      && (r[0] == '\n' <==> multi)
      && (multi ==> StartsWith(r, "\n    "))
      && (!multi ==> r[0] == ' ')
      && LinesIndented(r, 4)
  {
    var content := Indent(t);
    if multi {
      StartsWithConcat("\n    ", content);
    }
    IndentIndents(t);
    var r := (if multi then "\n    " else " ") + content;
    if multi {
      assert r == "\n" + ("    " + content);
      LinesAfterNewline("    " + content);
      LinesAfterText("    ", content);
      forall k | 1 <= k < |Lines(r)| ensures Indented(Lines(r)[k], 4) {
        if k >= 2 {
          assert Lines(r)[k] == Lines(content)[k - 1];
        }
      }
    } else {
      LinesAfterText(" ", content);
      forall k | 1 <= k < |Lines(r)| ensures Indented(Lines(r)[k], 4) {
        assert Lines(r)[k] == Lines(content)[k];
      }
    }
  }

  /** `serializeValue`: a value starts on a new line exactly when one of
      its text elements holds a line feed, and otherwise after a space;
      every line after its first is indented by four spaces. */
  lemma {:induction false} ValueShape(p: Pattern)
    requires ValueText(p).Success?
    ensures var r := ValueText(p).value;
      && |r| > 0
      && (r[0] == '\n' <==> ContainNewLine(p.elements))
      && (ContainNewLine(p.elements) ==> StartsWith(r, "\n    "))
      && (!ContainNewLine(p.elements) ==> r[0] == ' ')
      && LinesIndented(r, 4)
  {
    var multi := ContainNewLine(p.elements);
    ValueForms(multi, PatternText(p).value);
    assert ValueText(p).value == (if multi then "\n    " else " ") + Indent(PatternText(p).value);
  }

  /** A line that begins with `prefix`. */
  predicate StartsWith(line: string, prefix: string) {
    |prefix| <= |line| && line[..|prefix|] == prefix
  }

  lemma {:induction false} StartsWithConcat(x: string, y: string)
    ensures StartsWith(x + y, x)
  {
    assert (x + y)[..|x|] == x;
  }

  /** A line feed, a line made of `open`, `mid` and `close`, and an
      indented value: the lines of the whole. */
  lemma {:induction false} LineAfterBreak(open: string, mid: string, close: string, v: string)
    requires '\n' !in open && '\n' !in mid && '\n' !in close && LinesIndented(v, 4)
    ensures var ls := Lines(("\n" + open) + mid + close + Indent(v));
      && |ls| >= 2 && ls[0] == "" && StartsWith(ls[1], open + mid + close)
      && forall k :: 2 <= k < |ls| ==> Indented(ls[k], 8)
  {
    var x := open + mid + close;
    var w := Indent(v);
    IndentDeepens(v, 4);
    assert ("\n" + open) + mid + close + w == "\n" + (x + w);
    assert '\n' !in x;
    LinesAfterNewline(x + w);
    LinesAfterText(x, w);
    var ls := Lines("\n" + (x + w));
    assert ls[1] == x + Lines(w)[0];
    assert ls[1][..|x|] == x;
    forall k | 2 <= k < |ls| ensures Indented(ls[k], 8) {
      assert ls[k] == Lines(w)[k - 1];
    }
  }

  /** The string literals of the serializer, split after their line feed. */
  lemma {:induction false} Openers()
    ensures "\n" + "    " == "\n    "
    ensures "\n" + "    ." == "\n    ."
    ensures "\n" + "   *[" == "\n   *[" && "\n" + "    [" == "\n    ["
  {
  }

  /** `serializeAttribute`: an attribute takes a line of its own that
      starts with four spaces, a dot, its name and ` =`; the lines of its
      value after the first are indented by eight spaces. */
  lemma {:induction false} AttributeShape(attr: Attribute)
    requires AttributeText(attr).Success? && '\n' !in attr.id.name
    ensures var ls := Lines(AttributeText(attr).value);
      && |ls| >= 2 && ls[0] == "" && StartsWith(ls[1], "    ." + attr.id.name + " =")
      && forall k :: 2 <= k < |ls| ==> Indented(ls[k], 8)
  {
    var v := ValueText(attr.value).value;
    ValueShape(attr.value);
    assert AttributeText(attr).value == ("\n" + "    .") + attr.id.name + " =" + Indent(v) by {
      Openers();
    }
    LineAfterBreak("    .", attr.id.name, " =", v);
  }

  /** `serializeAttribute`: an attribute starts with a line feed, four
      spaces and a dot, its name and ` =`. */
  lemma {:induction false} AttributeOpens(attr: Attribute)
    requires AttributeText(attr).Success?
    ensures StartsWith(AttributeText(attr).value, "\n    ." + attr.id.name + " =")
  {
    StartsWithConcat("\n    ." + attr.id.name + " =", Indent(ValueText(attr.value).value));
  }

  /** `serializeVariant`: a variant takes a line of its own with its key in
      brackets from the fifth column, and a `*` in the fourth column exactly
      when it is the default; the lines of its value after the first are
      indented by eight spaces. */
  lemma {:induction false} VariantShape(v: Variant)
    requires VariantText(v).Success? && '\n' !in KeyText(v.key)
    ensures var ls := Lines(VariantText(v).value);
      && |ls| >= 2 && ls[0] == ""
      && KeyLine(ls[1], v.default, KeyText(v.key))
      && forall k :: 2 <= k < |ls| ==> Indented(ls[k], 8)
  {
    var value := ValueText(v.value).value;
    ValueShape(v.value);
    var open := if v.default then "   *[" else "    [";
    assert VariantText(v).value == ("\n" + open) + KeyText(v.key) + "]" + Indent(value) by {
      Openers();
    }
    LineAfterBreak(open, KeyText(v.key), "]", value);
    KeyLineOf(Lines(VariantText(v).value)[1], v.default, KeyText(v.key));
  }

  /** The line of a variant's key: `   *[` for the default and `    [` for
      any other, the key and `]`; so it is indented by three spaces, has its
      bracket in the fifth column and a `*` in the fourth exactly for the
      default. */
  predicate KeyLine(line: string, default: bool, key: string) {
    && StartsWith(line, (if default then "   *[" else "    [") + key + "]")
    && Indented(line, 3) && |line| > 4 && line[4] == '['
    && (line[3] == '*' <==> default)
  }

  lemma {:induction false} KeyLineOf(line: string, default: bool, key: string)
    requires StartsWith(line, (if default then "   *[" else "    [") + key + "]")
    ensures KeyLine(line, default, key)
  {
    var open := if default then "   *[" else "    [";
    assert line[..5] == (open + key + "]")[..5] == open;
  }

  /** The expressions `serializeExpression` can print: no placeable where
      an expression is expected (as a selector or a call argument), and
      only string and number literals as named argument values. */
  predicate PrintableExpr(e: Expression)
    decreases e, 1
  {
    match e
    case NestedPlaceable(_) => false
    case CallExpression(_, args) => forall k :: 0 <= k < |args| ==> PrintableArg(args[k])
    case SelectExpression(selector, variants) =>
      && (selector.Some? ==> PrintableExpr(selector.value))
      && forall k :: 0 <= k < |variants| ==> PrintablePattern(variants[k].value)
    case _ => true
  }

  predicate PrintableArg(arg: Argument)
    decreases arg, 0
  {
    match arg
    case Positional(expr) => PrintableExpr(expr)
    case NamedArgument(_, val) => val.StringExpression? || val.NumberExpression?
  }

  /** What a placeable may hold: placeables nested any number of times
      around a printable expression. */
  predicate PrintablePlaceable(e: Expression)
    decreases e, 2
  {
    if e.NestedPlaceable? then PrintablePlaceable(e.inner) else PrintableExpr(e)
  }

  predicate PrintablePattern(p: Pattern)
    decreases p, 0
  {
    forall k :: 0 <= k < |p.elements| ==>
      p.elements[k].Placeable? ==> PrintablePlaceable(p.elements[k].expression)
  }

  lemma {:induction false} PlaceableSucceeds(e: Expression)
    decreases e, 6
    ensures PlaceableText(e).Success? <==> PrintablePlaceable(e)
  {
    match e
    case NestedPlaceable(inner) => PlaceableSucceeds(inner);
    case _ => ExprSucceeds(e);
  }

  /** `serializeExpression` throws exactly on the expressions that are not
      printable. */
  lemma {:induction false} ExprSucceeds(e: Expression)
    decreases e, 5
    ensures ExprText(e).Success? <==> PrintableExpr(e)
  {
    match e
    case CallExpression(_, args) =>
      forall k | 0 <= k < |args| ensures ArgText(args[k]).Success? <==> PrintableArg(args[k]) {
        ArgSucceeds(args[k]);
      }
      assert ArgTexts(e) == Gather(ArgResults(e));
    case SelectExpression(selector, variants) =>
      if selector.Some? {
        ExprSucceeds(selector.value);
      }
      forall k | 0 <= k < |variants| ensures VariantText(variants[k]).Success? <==> PrintablePattern(variants[k].value) {
        PatternSucceeds(variants[k].value);
      }
      assert VariantTexts(e) == Gather(VariantResults(e));
      assert SelectText(e).Success? <==> SelectorParts(e).Success? && VariantTexts(e).Success?;
    case _ =>
  }

  lemma {:induction false} ArgSucceeds(arg: Argument)
    decreases arg, 0
    ensures ArgText(arg).Success? <==> PrintableArg(arg)
  {
    match arg
    case Positional(expr) => ExprSucceeds(expr);
    case NamedArgument(_, _) =>
  }

  /** `serializePattern` and `serializeValue` throw exactly on the patterns
      that are not printable. */
  lemma {:induction false} PatternSucceeds(p: Pattern)
    decreases p, 1
    ensures PatternText(p).Success? <==> PrintablePattern(p)
    ensures ValueText(p).Success? <==> PrintablePattern(p)
  {
    forall k | 0 <= k < |p.elements|
      ensures ElementText(p.elements[k]).Success? <==>
        (p.elements[k].Placeable? ==> PrintablePlaceable(p.elements[k].expression))
    {
      if p.elements[k].Placeable? {
        PlaceableSucceeds(p.elements[k].expression);
      }
    }
    assert ElementTexts(p) == Gather(ElementResults(p));
  }

  /** A message or term body that `serializeMessage` can print: a
      printable value and printable attribute values. */
  predicate PrintableBody(value: Option<Pattern>, attributes: seq<Attribute>) {
    && (value.Some? ==> PrintablePattern(value.value))
    && forall k :: 0 <= k < |attributes| ==> PrintablePattern(attributes[k].value)
  }

  lemma {:induction false} MessageSucceeds(id: Identifier, value: Option<Pattern>, attributes: seq<Attribute>, comment: Option<string>)
    ensures MessageText(id, value, attributes, comment).Success? <==> PrintableBody(value, attributes)
  {
    if value.Some? {
      PatternSucceeds(value.value);
    }
    forall k | 0 <= k < |attributes|
      ensures AttributeText(attributes[k]).Success? <==> PrintablePattern(attributes[k].value)
    {
      PatternSucceeds(attributes[k].value);
    }
  }

  /** Two parts joined. */
  lemma {:induction false} JoinPair(a: string, b: string)
    ensures Join([a, b], "") == a + b
  {
    JoinCons(a, [b], "");
    assert [a, b] == [a] + [b];
  }

  /** Parts that start with `head` and end with a line feed join to a
      string that does too. */
  lemma {:induction false} FramedJoin(head: seq<string>, v: seq<string>, a: seq<string>)
    ensures var r := Join(head + v + a + ["\n"], "");
      && |Join(head, "")| < |r| && r[..|Join(head, "")|] == Join(head, "") && r[|r| - 1] == '\n'
  {
    JoinConcat(head + v + a, ["\n"]);
    JoinConcat(head + v, a);
    JoinConcat(head, v);
  }

  lemma {:induction false} HeadJoin(id: Identifier, comment: Option<string>)
    ensures Join(HeadParts(id, comment), "") ==
      (if comment.Some? then SerializeComment(comment.value) + "\n" else "") + id.name + " ="
  {
    JoinPair(id.name, " =");
    if comment.Some? {
      assert HeadParts(id, comment) == [SerializeComment(comment.value), "\n"] + [id.name, " ="];
      JoinConcat([SerializeComment(comment.value), "\n"], [id.name, " ="]);
      JoinPair(SerializeComment(comment.value), "\n");
    } else {
      assert HeadParts(id, comment) == [id.name, " ="];
    }
  }

  /** A printed message or term: the comment and a line feed when there is
      one, then `id =`, and a closing line feed. */
  lemma {:induction false} MessageShape(id: Identifier, value: Option<Pattern>, attributes: seq<Attribute>, comment: Option<string>)
    requires MessageText(id, value, attributes, comment).Success?
    ensures var r := MessageText(id, value, attributes, comment).value;
      var head := (if comment.Some? then SerializeComment(comment.value) + "\n" else "") + id.name + " =";
      && |head| < |r| && r[..|head|] == head && r[|r| - 1] == '\n'
  {
    assert MessageText(id, value, attributes, comment).value ==
      Join(HeadParts(id, comment) + ValueParts(value).value + Gather(AttributeResults(attributes)).value + ["\n"], "");
    FramedJoin(HeadParts(id, comment), ValueParts(value).value, Gather(AttributeResults(attributes)).value);
    HeadJoin(id, comment);
  }

  /** The entries `serializeEntry` can print. */
  predicate PrintableEntry(entry: Entry) {
    match entry
    case Message(_, value, attributes, _) => PrintableBody(value, attributes)
    case Term(_, value, attributes, _) => PrintableBody(value, attributes)
    case UnknownEntry(_) => false
    case _ => true
  }

  /** `serializeEntry` throws exactly on the entries that are not
      printable, and an entry of unknown type with its type. */
  lemma {:induction false} EntrySucceeds(entry: Entry, hasEntries: bool)
    ensures EntryText(entry, hasEntries).Success? <==> PrintableEntry(entry)
    ensures entry.UnknownEntry? ==> EntryText(entry, hasEntries) == Failure(UnknownEntryType(entry.kind))
  {
    match entry
    case Message(id, value, attributes, comment) => MessageSucceeds(id, value, attributes, comment);
    case Term(id, value, attributes, comment) => MessageSucceeds(id, value, attributes, comment);
    case _ =>
  }

  /** The HAS_ENTRIES bit is set exactly when an earlier entry was
      printed. */
  lemma {:induction false} AnyEmittedIff(body: seq<Entry>, n: nat, withJunk: bool)
    requires n <= |body|
    decreases n
    ensures AnyEmitted(body, n, withJunk) <==> exists k :: 0 <= k < n && Emitted(body[k], withJunk)
  {
    if n > 0 {
      AnyEmittedIff(body, n - 1, withJunk);
    }
  }

  /** One more entry: `serialize` goes on succeeding unless it prints an
      entry that is not printable. */
  lemma {:induction false} EntriesStep(body: seq<Entry>, n: nat, withJunk: bool)
    requires 0 < n <= |body|
    ensures EntryParts(body, n, withJunk).Success? <==>
      EntryParts(body, n - 1, withJunk).Success? && (Emitted(body[n - 1], withJunk) ==> PrintableEntry(body[n - 1]))
  {
    EntrySucceeds(body[n - 1], AnyEmitted(body, n - 1, withJunk));
  }

  lemma {:induction false} EntriesSucceed(body: seq<Entry>, n: nat, withJunk: bool)
    requires n <= |body|
    decreases n
    ensures EntryParts(body, n, withJunk).Success? <==>
      forall k :: 0 <= k < n && Emitted(body[k], withJunk) ==> PrintableEntry(body[k])
  {
    if n > 0 {
      EntriesSucceed(body, n - 1, withJunk);
      EntriesStep(body, n, withJunk);
    }
  }

  /** `serialize` throws exactly when an entry it prints is not
      printable; skipped junk never makes it throw. */
  lemma {:induction false} ResourceSucceeds(resource: Resource, withJunk: bool)
    ensures ResourceText(resource, withJunk).Success? <==>
      forall k :: 0 <= k < |resource.body| && Emitted(resource.body[k], withJunk) ==> PrintableEntry(resource.body[k])
  {
    EntriesSucceed(resource.body, |resource.body|, withJunk);
  }

  function Sigil(entry: Entry): string
    requires entry.Comment? || entry.GroupComment? || entry.ResourceComment?
  {
    if entry.Comment? then "#" else if entry.GroupComment? then "##" else "###"
  }

  /** A standalone comment is printed with a blank line after it, and one
      before it exactly when some earlier entry was printed. */
  lemma {:induction false} CommentSeparated(body: seq<Entry>, n: nat, withJunk: bool)
    requires n < |body| && (body[n].Comment? || body[n].GroupComment? || body[n].ResourceComment?)
    requires EntryParts(body, n, withJunk).Success?
    ensures EntryParts(body, n + 1, withJunk) == Success(EntryParts(body, n, withJunk).value +
      [(if exists k :: 0 <= k < n && Emitted(body[k], withJunk) then "\n" else "") +
       CommentText(Sigil(body[n]), body[n].content) + "\n\n"])
  {
    AnyEmittedIff(body, n, withJunk);
  }

  /** The body without its junk entries. */
  function DropJunk(body: seq<Entry>): (r: seq<Entry>)
    ensures forall k :: 0 <= k < |r| ==> !r[k].Junk?
  {
    if body == [] then []
    else DropJunk(body[..|body| - 1]) + (if body[|body| - 1].Junk? then [] else [body[|body| - 1]])
  }

  /** What `serialize` prints for the first `n` entries depends on those
      entries only. */
  lemma {:induction false} EntryPartsPrefix(b: seq<Entry>, c: seq<Entry>, n: nat, withJunk: bool)
    requires n <= |b| && n <= |c| && b[..n] == c[..n]
    decreases n
    ensures EntryParts(b, n, withJunk) == EntryParts(c, n, withJunk)
    ensures AnyEmitted(b, n, withJunk) == AnyEmitted(c, n, withJunk)
  {
    if n > 0 {
      assert b[..n - 1] == b[..n][..n - 1];
      assert c[..n - 1] == c[..n][..n - 1];
      assert b[n - 1] == b[..n][n - 1];
      assert c[n - 1] == c[..n][n - 1];
      EntryPartsPrefix(b, c, n - 1, withJunk);
    }
  }

  /** Without `withJunk`, the first `n` entries print as their junk-free
      selection prints with it: junk is neither printed nor counted as an
      earlier entry. */
  lemma {:induction false} JunkOmittedPrefix(body: seq<Entry>, n: nat)
    requires n <= |body|
    decreases n
    ensures var d := DropJunk(body[..n]);
      && EntryParts(body, n, false) == EntryParts(d, |d|, true)
      && AnyEmitted(body, n, false) == AnyEmitted(d, |d|, true)
  {
    if n > 0 {
      JunkOmittedPrefix(body, n - 1);
      var d, e := DropJunk(body[..n - 1]), body[n - 1];
      assert body[..n][..n - 1] == body[..n - 1] && body[..n][n - 1] == e;
      if e.Junk? {
        assert DropJunk(body[..n]) == d by {
          assert DropJunk(body[..n]) == d + [];
          assert d + [] == d;
        }
      } else {
        assert DropJunk(body[..n]) == d + [e];
        KeptEntryStep(body, n, d);
      }
    }
  }

  /** JunkOmittedPrefix's step for an entry that is not junk: it is
      printed after the selection made so far, in both modes alike. */
  lemma {:induction false} KeptEntryStep(body: seq<Entry>, n: nat, d: seq<Entry>)
    requires 0 < n <= |body| && !body[n - 1].Junk?
    requires EntryParts(body, n - 1, false) == EntryParts(d, |d|, true)
    requires AnyEmitted(body, n - 1, false) == AnyEmitted(d, |d|, true)
    ensures var d' := d + [body[n - 1]];
      && EntryParts(body, n, false) == EntryParts(d', |d'|, true)
      && AnyEmitted(body, n, false) == AnyEmitted(d', |d'|, true)
  {
    var d' := d + [body[n - 1]];
    assert d'[|d|] == body[n - 1];
    assert EntryParts(d', |d|, true) == EntryParts(d, |d|, true) && AnyEmitted(d', |d|, true) == AnyEmitted(d, |d|, true) by {
      assert d'[..|d|] == d[..|d|];
      EntryPartsPrefix(d', d, |d|, true);
    }
  }

  /** Without `withJunk`, a resource prints as the resource with its junk
      removed prints with it. */
  lemma {:induction false} JunkOmitted(body: seq<Entry>)
    ensures ResourceText(Resource(body), false) == ResourceText(Resource(DropJunk(body)), true)
  {
    JunkOmittedPrefix(body, |body|);
    assert body[..|body|] == body;
  }

  /** A printed variant starts on a new line, with `   *[` for the default
      and `    [` for any other, then its key and `]`. */
  lemma {:induction false} VariantOpens(v: Variant)
    requires VariantText(v).Success?
    ensures |VariantText(v).value| > 0 && VariantText(v).value[0] == '\n'
    ensures StartsWith(VariantText(v).value, (if v.default then "\n   *[" else "\n    [") + KeyText(v.key) + "]")
  {
    var open := if v.default then "\n   *[" else "\n    [";
    var head := open + KeyText(v.key) + "]";
    var t := Indent(ValueText(v.value).value);
    assert VariantText(v).value == head + t;
    StartsWithConcat(head, t);
    assert (head + t)[0] == '\n' by {
      assert open[0] == '\n';
    }
  }

  /** A printed select expression ends with a line feed; without a selector
      it starts with one, with a selector it starts with the selector and
      ` ->`. */
  lemma {:induction false} SelectShape(e: Expression)
    requires e.SelectExpression? && SelectText(e).Success?
    ensures var r := SelectText(e).value;
      && |r| > 0 && r[|r| - 1] == '\n'
      && (e.expression.None? ==> r[0] == '\n')
      && (e.expression.Some? ==>
            && ExprText(e.expression.value).Success?
            && var s := ExprText(e.expression.value).value + " ->"; |s| < |r| && r[..|s|] == s)
  {
    var head := SelectorParts(e).value;
    var vs := VariantTexts(e).value;
    JoinConcat(head + vs, ["\n"]);
    JoinConcat(head, vs);
    if e.expression.None? {
      assert head == [];
      if vs != [] {
        assert |Join(vs, "")| > 0 && Join(vs, "")[0] == '\n' by {
          assert VariantResults(e)[0] == Success(vs[0]);
          VariantOpens(e.variants[0]);
        }
      }
    } else {
      assert head == [ExprText(e.expression.value).value + " ->"];
    }
  }


  /** A printed placeable is in braces. A nested placeable is the inner
      one's text in one more pair of braces. A select expression's closing
      brace stands at the start of a line, its opening brace is followed by
      a space when it has a selector and by a line feed exactly when it has
      none; any other expression is padded by a space on each side. */
  lemma {:induction false} PlaceableShape(e: Expression)
    requires PlaceableText(e).Success?
    ensures var r := PlaceableText(e).value;
      && |r| >= 2 && r[0] == '{' && r[|r| - 1] == '}'
      && (e.SelectExpression? ==> r[|r| - 2] == '\n' && (r[1] == '\n' <==> e.expression.None?))
      && (e.SelectExpression? && e.expression.Some? ==> r[..2] == "{ ")
      && (e.NestedPlaceable? ==> PlaceableText(e.inner).Success? && r == "{" + PlaceableText(e.inner).value + "}")
      && (!e.SelectExpression? && !e.NestedPlaceable? ==> |r| >= 4 && r[1] == ' ' && r[|r| - 2] == ' ')
  {
    if e.SelectExpression? {
      SelectShape(e);
    }
  }

  /** `serializeCallExpression`: the callee, then the arguments in
      parentheses. */
  lemma {:induction false} CallShape(e: Expression)
    requires e.CallExpression? && CallText(e).Success?
    ensures var r := CallText(e).value;
      && StartsWith(r, e.callee.name + "(") && r[|r| - 1] == ')'
  {
    StartsWithConcat(e.callee.name + "(", Join(ArgTexts(e).value, ", ") + ")");
    assert CallText(e).value == e.callee.name + "(" + (Join(ArgTexts(e).value, ", ") + ")");
  }
}

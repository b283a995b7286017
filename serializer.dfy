// FluentSerializer of fluent-syntax: prints a syntax tree back as FTL text.
// The printing of patterns, expressions and variants is pure and mutually
// recursive, so it is written as functions; serialize, serializeMessage and
// serializeSelectExpression collect their output in a list of parts with a
// loop, so they are methods proved to compute the functions that specify
// them. A throw is a Failure.

module Serializer {
  import opened Text
  import opened SyntaxAst

  /** `indent`: every line after the first is indented by four spaces. */
  function Indent(content: string): (r: string)
    ensures r == ReplaceChar(content, '\n', "\n    ")
  {
    JoinSplit(content, '\n', "\n    ");
    Join(Split(content, '\n'), "\n    ")
  }

  /** The elements `containNewLine` keeps: text elements holding a line feed. */
  function WithNewLine(elems: seq<PatternElement>): (r: seq<PatternElement>)
    ensures forall k :: 0 <= k < |r| ==> r[k] in elems && r[k].TextElement? && '\n' in r[k].value
    ensures forall k :: 0 <= k < |elems| && elems[k].TextElement? && '\n' in elems[k].value ==> elems[k] in r
  {
    if elems == [] then []
    else
      assert elems[0].TextElement? ==> (Includes(elems[0].value, '\n') <==> '\n' in elems[0].value) by {
        if elems[0].TextElement? {
          IncludesIsMembership(elems[0].value, '\n');
        }
      }
      var rest := WithNewLine(elems[1..]);
      assert forall k :: 1 <= k < |elems| ==> elems[k] == elems[1..][k - 1];
      if elems[0].TextElement? && Includes(elems[0].value, '\n') then [elems[0]] + rest else rest
  }

  /** `containNewLine`: whether some text element holds a line feed. */
  function ContainNewLine(elems: seq<PatternElement>): (r: bool)
    ensures r <==> exists k :: 0 <= k < |elems| && elems[k].TextElement? && '\n' in elems[k].value
  {
    var kept := WithNewLine(elems);
    if |kept| > 0 then assert kept[0] in elems; true else false
  }

  /** `xs.map(f)` where `f` throws: the results in order, or the first
      failure. */
  function Gather(rs: seq<Result<string>>): (r: Result<seq<string>>)
    decreases |rs|
    ensures r.Success? <==> forall k :: 0 <= k < |rs| ==> rs[k].Success?
    ensures r.Success? ==> |r.value| == |rs| && forall k :: 0 <= k < |rs| ==> rs[k] == Success(r.value[k])
    ensures r.Failure? ==> exists k :: 0 <= k < |rs| && rs[k] == Failure(r.error) && forall j :: 0 <= j < k ==> rs[j].Success?
  {
    if rs == [] then Success([])
    else
      var front := rs[..|rs| - 1];
      assert forall k :: 0 <= k < |rs| - 1 ==> rs[k] == front[k];
      var init :- Gather(front);
      var last :- rs[|rs| - 1];
      Success(init + [last])
  }

  /** `line.length ? sigil + " " + line : sigil` for every line. */
  function CommentLines(sigil: string, lines: seq<string>): (r: seq<string>)
    ensures |r| == |lines|
    ensures forall k :: 0 <= k < |lines| ==> r[k] == if |lines[k]| > 0 then sigil + " " + lines[k] else sigil
  {
    if lines == [] then []
    else [if |lines[0]| > 0 then sigil + " " + lines[0] else sigil] + CommentLines(sigil, lines[1..])
  }

  /** The shared body of the three comment printers. */
  function CommentText(sigil: string, content: string): string {
    Join(CommentLines(sigil, Split(content, '\n')), "\n")
  }

  function SerializeComment(content: string): string {
    CommentText("#", content)
  }

  function SerializeGroupComment(content: string): string {
    CommentText("##", content)
  }

  function SerializeResourceComment(content: string): string {
    CommentText("###", content)
  }

  function KeyText(key: VariantKey): string {
    match key
    case VariantName(name) => name
    case NumberKey(value) => value
  }

  /** `serializeArgumentValue`: only string and number literals. */
  function ArgumentValueText(val: Expression): (r: Result<string>)
    ensures r.Failure? <==> !(val.StringExpression? || val.NumberExpression?)
    ensures r.Failure? ==> r.error == UnknownArgumentType
  {
    match val
    case StringExpression(value) => Success("\"" + value + "\"")
    case NumberExpression(value) => Success(value)
    case _ => Failure(UnknownArgumentType)
  }

  /** `serializePlaceable` of a placeable whose expression is `e`. */
  function PlaceableText(e: Expression): Result<string>
    decreases e, 5
  {
    match e
    case NestedPlaceable(inner) =>
      var t :- PlaceableText(inner);
      Success("{" + t + "}")
    case SelectExpression(selector, _) =>
      var t :- SelectText(e);
      Success(if selector.Some? then "{ " + t + "}" else "{" + t + "}")
    case _ =>
      var t :- ExprText(e);
      Success("{ " + t + " }")
  }

  /** `serializeExpression`; it has no case for a placeable. */
  function ExprText(e: Expression): Result<string>
    decreases e, 4
  {
    match e
    case StringExpression(value) => Success("\"" + value + "\"")
    case NumberExpression(value) => Success(value)
    case MessageReference(id) => Success(id.name)
    case ExternalArgument(id) => Success("$" + id.name)
    case AttributeExpression(id, name) => Success(id.name + "." + name.name)
    case VariantExpression(id, key) => Success(id.name + "[" + KeyText(key) + "]")
    case CallExpression(_, _) => CallText(e)
    case SelectExpression(_, _) => SelectText(e)
    case NestedPlaceable(_) => Failure(UnknownExpressionType)
  }

  /** `serializeCallExpression`: the arguments joined by ", ". */
  function CallText(e: Expression): Result<string>
    requires e.CallExpression?
    decreases e, 3
  {
    var args :- ArgTexts(e);
    Success(e.callee.name + "(" + Join(args, ", ") + ")")
  }

  /** `expr.args.map(serializeCallArgument)` */
  function ArgTexts(e: Expression): Result<seq<string>>
    requires e.CallExpression?
    decreases e, 2
  {
    Gather(ArgResults(e))
  }

  function ArgResults(e: Expression): (rs: seq<Result<string>>)
    requires e.CallExpression?
    decreases e, 1
    ensures |rs| == |e.args| && forall k :: 0 <= k < |rs| ==> rs[k] == ArgText(e.args[k])
  {
    seq(|e.args|, k requires 0 <= k < |e.args| => ArgText(e.args[k]))
  }

  /** `serializeCallArgument` and `serializeNamedArgument`. */
  function ArgText(arg: Argument): Result<string>
    decreases arg, 1
  {
    match arg
    case NamedArgument(name, val) =>
      var value :- ArgumentValueText(val);
      Success(name.name + ": " + value)
    case Positional(expr) => ExprText(expr)
  }

  /** `serializeSelectExpression`: its parts joined. */
  function SelectText(e: Expression): Result<string>
    requires e.SelectExpression?
    decreases e, 3
  {
    var parts :- SelectParts(e);
    Success(Join(parts, ""))
  }

  /** The parts `serializeSelectExpression` pushes: the selector and " ->"
      when there is one, each variant, and a closing line feed. */
  function SelectParts(e: Expression): Result<seq<string>>
    requires e.SelectExpression?
    decreases e, 2
  {
    var head :- SelectorParts(e);
    var variants :- VariantTexts(e);
    Success(head + variants + ["\n"])
  }

  function SelectorParts(e: Expression): Result<seq<string>>
    requires e.SelectExpression?
    decreases e, 1
  {
    if e.expression.Some? then
      var s :- ExprText(e.expression.value);
      Success([s + " ->"])
    else Success([])
  }

  /** Each variant printed by `serializeVariant`. */
  function VariantTexts(e: Expression): Result<seq<string>>
    requires e.SelectExpression?
    decreases e, 1
  {
    Gather(VariantResults(e))
  }

  function VariantResults(e: Expression): (rs: seq<Result<string>>)
    requires e.SelectExpression?
    decreases e, 0
    ensures |rs| == |e.variants| && forall k :: 0 <= k < |rs| ==> rs[k] == VariantText(e.variants[k])
  {
    seq(|e.variants|, k requires 0 <= k < |e.variants| => VariantText(e.variants[k]))
  }

  /** `serializeVariant`: the key on a new line, with the default marked by
      a `*` in the fourth column, and the value indented once more. */
  function VariantText(v: Variant): Result<string>
    decreases v, 4
  {
    var value :- ValueText(v.value);
    Success((if v.default then "\n   *[" else "\n    [") + KeyText(v.key) + "]" + Indent(value))
  }

  /** `serializeValue`: a multiline pattern starts on a new indented line. */
  function ValueText(p: Pattern): Result<string>
    decreases p, 3
  {
    var text :- PatternText(p);
    var content := Indent(text);
    Success(if ContainNewLine(p.elements) then "\n    " + content else " " + content)
  }

  /** `serializePattern`: the elements concatenated. */
  function PatternText(p: Pattern): Result<string>
    decreases p, 2
  {
    var parts :- ElementTexts(p);
    Success(Join(parts, ""))
  }

  /** `pattern.elements.map(serializeElement)` */
  function ElementTexts(p: Pattern): Result<seq<string>>
    decreases p, 1
  {
    Gather(ElementResults(p))
  }

  function ElementResults(p: Pattern): (rs: seq<Result<string>>)
    decreases p, 0
    ensures |rs| == |p.elements| && forall k :: 0 <= k < |rs| ==> rs[k] == ElementText(p.elements[k])
  {
    seq(|p.elements|, k requires 0 <= k < |p.elements| => ElementText(p.elements[k]))
  }

  function ElementText(el: PatternElement): Result<string>
    decreases el, 0
  {
    match el
    case TextElement(value) => Success(value)
    case Placeable(expression) => PlaceableText(expression)
  }

  /** `serializeAttribute` */
  function AttributeText(attr: Attribute): Result<string> {
    var value :- ValueText(attr.value);
    Success("\n    ." + attr.id.name + " =" + Indent(value))
  }

  /** Each attribute printed by `serializeAttribute`. */
  function AttributeResults(attrs: seq<Attribute>): (rs: seq<Result<string>>)
    ensures |rs| == |attrs| && forall k :: 0 <= k < |rs| ==> rs[k] == AttributeText(attrs[k])
  {
    seq(|attrs|, k requires 0 <= k < |attrs| => AttributeText(attrs[k]))
  }

  /** What `serializeMessage` prints for a message or a term: its parts
      joined. */
  function MessageText(id: Identifier, value: Option<Pattern>, attributes: seq<Attribute>, comment: Option<string>): Result<string> {
    var parts :- MessageParts(id, value, attributes, comment);
    Success(Join(parts, ""))
  }

  /** The parts `serializeMessage` pushes: the comment and a line feed,
      `id =`, the value, each attribute, a closing line feed. */
  function MessageParts(id: Identifier, value: Option<Pattern>, attributes: seq<Attribute>, comment: Option<string>): Result<seq<string>> {
    var v :- ValueParts(value);
    var attrs :- Gather(AttributeResults(attributes));
    Success(HeadParts(id, comment) + v + attrs + ["\n"])
  }

  function HeadParts(id: Identifier, comment: Option<string>): seq<string> {
    (if comment.Some? then [SerializeComment(comment.value), "\n"] else []) + [id.name, " ="]
  }

  function ValueParts(value: Option<Pattern>): Result<seq<string>> {
    if value.Some? then
      var t :- ValueText(value.value);
      Success([t])
    else Success([])
  }

  /** `serializeEntry`; `hasEntries` is the HAS_ENTRIES bit of the state. */
  function EntryText(entry: Entry, hasEntries: bool): Result<string> {
    match entry
    case Message(id, value, attributes, comment) => MessageText(id, value, attributes, comment)
    case Term(id, value, attributes, comment) => MessageText(id, value, attributes, comment)
    case Comment(content) => Success((if hasEntries then "\n" else "") + SerializeComment(content) + "\n\n")
    case GroupComment(content) => Success((if hasEntries then "\n" else "") + SerializeGroupComment(content) + "\n\n")
    case ResourceComment(content) => Success((if hasEntries then "\n" else "") + SerializeResourceComment(content) + "\n\n")
    case Junk(content) => Success(content)
    case UnknownEntry(kind) => Failure(UnknownEntryType(kind))
  }

  /** Whether `serialize` prints `entry`: junk only `withJunk`. */
  predicate Emitted(entry: Entry, withJunk: bool) {
    !entry.Junk? || withJunk
  }

  /** Whether one of the first `n` entries is printed: the HAS_ENTRIES bit
      of the state after them. */
  predicate AnyEmitted(body: seq<Entry>, n: nat, withJunk: bool)
    requires n <= |body|
  {
    n > 0 && (AnyEmitted(body, n - 1, withJunk) || Emitted(body[n - 1], withJunk))
  }

  /** The parts `serialize` pushes for the first `n` entries. */
  function EntryParts(body: seq<Entry>, n: nat, withJunk: bool): Result<seq<string>>
    requires n <= |body|
  {
    if n == 0 then Success([])
    else
      var init :- EntryParts(body, n - 1, withJunk);
      if Emitted(body[n - 1], withJunk) then
        var last :- EntryText(body[n - 1], AnyEmitted(body, n - 1, withJunk));
        Success(init + [last])
      else Success(init)
  }

  /** What `serialize` prints: its parts joined. */
  function ResourceText(resource: Resource, withJunk: bool): Result<string> {
    var parts :- EntryParts(resource.body, |resource.body|, withJunk);
    Success(Join(parts, ""))
  }

  /** One more result gathered. */
  lemma {:induction false} GatherSnoc(rs: seq<Result<string>>, i: nat)
    requires i < |rs|
    ensures Gather(rs[..i + 1]) ==
      if Gather(rs[..i]).Failure? then Gather(rs[..i])
      else if rs[i].Failure? then Failure(rs[i].error)
      else Success(Gather(rs[..i]).value + [rs[i].value])
  {
    assert rs[..i + 1][..i] == rs[..i];
  }

  /** Once a prefix fails, the whole fails the same way. */
  lemma {:induction false} GatherFailureSticks(rs: seq<Result<string>>, i: nat)
    requires i <= |rs| && Gather(rs[..i]).Failure?
    decreases |rs| - i
    ensures Gather(rs) == Gather(rs[..i])
  {
    if i < |rs| {
      GatherSnoc(rs, i);
      GatherFailureSticks(rs, i + 1);
    } else {
      assert rs[..i] == rs;
    }
  }

  /** Once a prefix of the entries fails, every longer prefix fails the
      same way. */
  lemma {:induction false} EntriesFailureSticks(body: seq<Entry>, n: nat, m: nat, withJunk: bool)
    requires n <= m <= |body| && EntryParts(body, n, withJunk).Failure?
    decreases m
    ensures EntryParts(body, m, withJunk) == EntryParts(body, n, withJunk)
  {
    if m > n {
      EntriesFailureSticks(body, n, m - 1, withJunk);
    }
  }

  /** `serializeMessage`, with its list of parts. */
  method SerializeMessage(id: Identifier, value: Option<Pattern>, attributes: seq<Attribute>, comment: Option<string>)
    returns (r: Result<string>)
    ensures r == MessageText(id, value, attributes, comment)
  {
    var parts: seq<string> := [];
    if comment.Some? {
      parts := parts + [SerializeComment(comment.value)];
      parts := parts + ["\n"];
    }
    assert parts == if comment.Some? then [SerializeComment(comment.value), "\n"] else [];
    parts := parts + [id.name];
    parts := parts + [" ="];
    assert parts == HeadParts(id, comment);
    if value.Some? {
      var v := ValueText(value.value);
      if v.Failure? {
        return Failure(v.error);
      }
      parts := parts + [v.value];
    }
    assert parts == HeadParts(id, comment) + ValueParts(value).value;
    var all := PushAttributes(parts, attributes);
    if all.Failure? {
      return Failure(all.error);
    }
    parts := all.value + ["\n"];
    r := Success(Join(parts, ""));
  }

  /** The attribute loop of `serializeMessage`. */
  method PushAttributes(head: seq<string>, attributes: seq<Attribute>) returns (r: Result<seq<string>>)
    ensures var all := Gather(AttributeResults(attributes));
      r == if all.Failure? then Failure(all.error) else Success(head + all.value)
  {
    ghost var rs := AttributeResults(attributes);
    var parts := head;
    for i := 0 to |attributes|
      invariant Gather(rs[..i]).Success?
      invariant parts == head + Gather(rs[..i]).value
    {
      var a := AttributeText(attributes[i]);
      assert Gather(rs[..i + 1]) == if a.Failure? then Failure(a.error) else Success(Gather(rs[..i]).value + [a.value]) by {
        assert rs[i] == a;
        GatherSnoc(rs, i);
      }
      if a.Failure? {
        GatherFailureSticks(rs, i + 1);
        return Failure(a.error);
      }
      parts := parts + [a.value];
    }
    assert rs[..|attributes|] == rs;
    r := Success(parts);
  }

  /** `serializeSelectExpression`, with its list of parts. */
  method SerializeSelectExpression(e: Expression) returns (r: Result<string>)
    requires e.SelectExpression?
    ensures r == SelectText(e)
  {
    var parts: seq<string> := [];
    if e.expression.Some? {
      var selector := ExprText(e.expression.value);
      assert SelectorParts(e) == if selector.Failure? then Failure(selector.error) else Success([selector.value + " ->"]);
      if selector.Failure? {
        assert SelectParts(e) == Failure(selector.error);
        return Failure(selector.error);
      }
      parts := parts + [selector.value + " ->"];
      assert parts == [selector.value + " ->"];
    }
    assert Success(parts) == SelectorParts(e);
    var all := PushVariants(parts, e);
    if all.Failure? {
      return Failure(all.error);
    }
    parts := all.value + ["\n"];
    r := Success(Join(parts, ""));
  }

  /** The variant loop of `serializeSelectExpression`. */
  method PushVariants(head: seq<string>, e: Expression) returns (r: Result<seq<string>>)
    requires e.SelectExpression?
    ensures var all := VariantTexts(e);
      r == if all.Failure? then Failure(all.error) else Success(head + all.value)
  {
    ghost var rs := VariantResults(e);
    var parts := head;
    for i := 0 to |e.variants|
      invariant Gather(rs[..i]).Success?
      invariant parts == head + Gather(rs[..i]).value
    {
      var t := VariantText(e.variants[i]);
      GatherSnoc(rs, i);
      if t.Failure? {
        GatherFailureSticks(rs, i + 1);
        return Failure(t.error);
      }
      parts := parts + [t.value];
    }
    assert rs[..|e.variants|] == rs;
    r := Success(parts);
  }

  class FluentSerializer {
    const withJunk: bool

    /** `new FluentSerializer({ withJunk })`; the source defaults it to false. */
    constructor(withJunk: bool)
      ensures this.withJunk == withJunk
    {
      this.withJunk := withJunk;
    }

    /** `serialize`: every printed entry, with junk only when `withJunk`,
        concatenated; the state records whether an entry was printed. */
    method Serialize(resource: Resource) returns (r: Result<string>)
      ensures r == ResourceText(resource, withJunk)
    {
      var body := resource.body;
      var state := false;
      var parts: seq<string> := [];
      for i := 0 to |body|
        invariant EntryParts(body, i, withJunk) == Success(parts)
        invariant state == AnyEmitted(body, i, withJunk)
      {
        var entry := body[i];
        if !entry.Junk? || withJunk {
          var part := SerializeEntry(entry, state);
          if part.Failure? {
            EntriesFailureSticks(body, i + 1, |body|, withJunk);
            return Failure(part.error);
          }
          parts := parts + [part.value];
          if !state {
            state := true;
          }
        }
      }
      r := Success(Join(parts, ""));
    }

    /** `serializeEntry(entry, state)` */
    method SerializeEntry(entry: Entry, hasEntries: bool) returns (r: Result<string>)
      ensures r == EntryText(entry, hasEntries)
    {
      match entry
      case Message(id, value, attributes, comment) =>
        r := SerializeMessage(id, value, attributes, comment);
      case Term(id, value, attributes, comment) =>
        r := SerializeMessage(id, value, attributes, comment);
      case Comment(content) =>
        r := Success((if hasEntries then "\n" else "") + SerializeComment(content) + "\n\n");
      case GroupComment(content) =>
        r := Success((if hasEntries then "\n" else "") + SerializeGroupComment(content) + "\n\n");
      case ResourceComment(content) =>
        r := Success((if hasEntries then "\n" else "") + SerializeResourceComment(content) + "\n\n");
      case Junk(content) =>
        r := Success(content);
      case UnknownEntry(kind) =>
        r := Failure(UnknownEntryType(kind));
    }
  }
}

// The syntax tree that the serializer of fluent-syntax prints. The
// tree-building parser is not part of this model, so the tree is given as
// these datatypes; each constructor is one node `type` the serializer
// switches on, and a node the switch does not know is represented where the
// serializer has a `default` that throws.

module SyntaxAst {
  import opened Text

  /** An `Identifier` node; only its `name` is ever printed. */
  datatype Identifier = Identifier(name: string)

  /** The key of a variant: a `VariantName` or a `NumberExpression`. */
  datatype VariantKey = VariantName(name: string) | NumberKey(value: string)

  datatype Expression =
    | StringExpression(value: string)
    | NumberExpression(value: string)
    | MessageReference(id: Identifier)
    | ExternalArgument(id: Identifier)
    | AttributeExpression(id: Identifier, name: Identifier)
    | VariantExpression(id: Identifier, key: VariantKey)
    | CallExpression(callee: Identifier, args: seq<Argument>)
    | SelectExpression(expression: Option<Expression>, variants: seq<Variant>)
      /** A `Placeable` node standing where an expression is expected
          (`{{ ... }}`): serializePlaceable unwraps it, serializeExpression
          has no case for it. */
    | NestedPlaceable(inner: Expression)

  /** An element of `CallExpression.args`: an expression, or a
      `NamedArgument`. */
  datatype Argument = Positional(expr: Expression) | NamedArgument(name: Identifier, val: Expression)

  datatype Variant = Variant(key: VariantKey, value: Pattern, default: bool)

  datatype Pattern = Pattern(elements: seq<PatternElement>)

  datatype PatternElement = TextElement(value: string) | Placeable(expression: Expression)

  datatype Attribute = Attribute(id: Identifier, value: Pattern)

  /** The entries of a resource body. A message's or term's `comment` is
      given by the `content` of its Comment node. */
  datatype Entry =
    | Message(id: Identifier, value: Option<Pattern>, attributes: seq<Attribute>, comment: Option<string>)
    | Term(id: Identifier, value: Option<Pattern>, attributes: seq<Attribute>, comment: Option<string>)
    | Comment(content: string)
    | GroupComment(content: string)
    | ResourceComment(content: string)
    | Junk(content: string)
      /** A node of any other `type`. */
    | UnknownEntry(kind: string)

  datatype Resource = Resource(body: seq<Entry>)

  /** The errors the serializer throws. */
  datatype SerializerError =
    | UnknownEntryType(kind: string)  // serializeEntry's default
    | UnknownExpressionType           // serializeExpression's default (a Placeable)
    | UnknownArgumentType             // serializeArgumentValue's default

  datatype Result<+T> = Success(value: T) | Failure(error: SerializerError) {
    predicate IsFailure() {
      Failure?
    }

    function PropagateFailure<U>(): Result<U>
      requires Failure?
    {
      Failure(error)
    }

    function Extract(): T
      requires Success?
    {
      value
    }
  }
}

// The compact entries that `RuntimeParser` (fluent/src/parser.js) builds,
// and the outcome of one parsing step: a value plus the index the cursor is
// left at, or a thrown SyntaxError plus the index at the throw.

module RuntimeAst {
  import opened Text

  /** The reason a `SyntaxError` was thrown, one per `throw` site. */
  datatype ParseError =
    | ExpectedValueOrAttribute      // getMessage
    | ExpectedIdentifier            // getIdentifier
    | ExpectedKeyword               // getVariantName
    | UnterminatedString            // getString
    | TooManyPlaceables             // getComplexPattern
    | PrivateAttributeInterpolated  // getPlaceable
    | ExpectedBraceOrArrow          // getPlaceable
    | ReferenceAsSelector           // getPlaceable
    | VariantAsSelector             // getPlaceable
    | PublicAttributeAsSelector     // getPlaceable
    | VariantsOnNewLine             // getPlaceable
    | ExpectedVariants              // getPlaceable
    | ExpectedStringOrNumber        // getCallArgs
    | ExpectedCommaOrParen          // getCallArgs
    | ExpectedNumber                // getNumber
    | ExpectedEquals                // getAttributes
    | ExpectedOpenBracket           // getVariants
    | ExpectedCloseBracket          // getVariantKey
    | ExpectedLiteral               // getLiteral

  /** A parse step: the value and the index after it, or the error thrown and
      the index at the moment of the throw. */
  datatype Outcome<+T> = Ok(value: T, next: nat) | Fail(err: ParseError, at: nat) {
    predicate IsFailure() {
      Fail?
    }

    function PropagateFailure<U>(): Outcome<U>
      requires Fail?
    {
      Fail(err, at)
    }

    function Extract(): (T, nat)
      requires Ok?
    {
      (value, next)
    }
  }

  /** A method's view of a step: its return value, the index being kept in
      the parser object. */
  datatype Result<+T> = Success(value: T) | Failure(err: ParseError)

  function Observe<T>(r: Result<T>, index: nat): Outcome<T> {
    match r
    case Success(v) => Ok(v, index)
    case Failure(e) => Fail(e, index)
  }

  /** getVariantKey: a number (`{type: 'num'}`) or a keyword
      (`{type: 'varname'}`). */
  datatype VariantKey = KeyNumber(val: string) | KeyName(name: string)

  /** The objects the expression scanners return. `Str` is the bare string
      getString returns; `Ext` is `{type: 'ext'}`; `VariantRef` is
      `{type: 'var'}`; the callee of `Call` is the reference retagged
      `'fun'`. */
  datatype Expr =
    | Str(value: string)
    | Num(val: string)
    | Ext(name: string)
    | Ref(name: string)
    | Attr(id: string, name: string)
    | VariantRef(id: string, key: VariantKey)
    | Call(fun: string, args: seq<Arg>)
    | Select(exp: Option<Expr>, vars: seq<Variant>, def: Option<nat>)

  /** A call argument: an expression, or `{type: 'narg', name, val}`. */
  datatype Arg = Positional(exp: Expr) | Named(name: string, val: Expr)

  /** `{key, val}` pushed by getVariants; `val` is what getPattern returned. */
  datatype Variant = Variant(key: VariantKey, val: Option<Pattern>)

  /** What getPattern returns when it does not return null: a bare string,
      or the element array of getComplexPattern. */
  datatype Pattern = PStr(s: string) | PElems(elems: seq<Element>)

  /** An element of the array: a text run or a placeable's expression. */
  datatype Element = Text(s: string) | Place(e: Expr)

  /** A value in a message's `attrs` object: the bare string, or `{val}`
      around anything else getPattern returned (an array, or null). */
  datatype AttrValue = AttrStr(s: string) | AttrObj(val: Option<Pattern>)

  /** A value stored in `entries`: the bare string (fast path) or the object
      `{val?, attrs?}`, each field present only when it is not null. */
  datatype Entry =
    | Bare(s: string)
    | Obj(val: Option<Pattern>, attrs: Option<map<string, AttrValue>>)

  function CountPlaces(es: seq<Element>): (n: nat)
    ensures n <= |es|
  {
    if es == [] then 0 else CountPlaces(es[..|es| - 1]) + (if es[|es| - 1].Place? then 1 else 0)
  }

  /** The shape getComplexPattern promises for an element array: no empty
      text run, no two text runs side by side. */
  predicate TextRunsCoalesced(es: seq<Element>) {
    (forall k :: 0 <= k < |es| && es[k].Text? ==> es[k].s != "")
    && (forall k :: 0 <= k < |es| - 1 ==> !(es[k].Text? && es[k + 1].Text?))
  }
}

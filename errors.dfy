/**
 * The error taxonomy of the front end: variant tags with the names and byte
 * ranges they carry. Rendering (source excerpts, help texts) is not modelled.
 */
module Errors {
  import opened Ast

  datatype ParserError =
    | UnexpectedToken(span: Span, expected: string)
    | UnexpectedEof(span: Span)

  /** What a failed type check expected to see. */
  datatype Expected =
    | TypeNamed(name: string)        // a built-in or struct name, or "Array"
    | EnumNamed(name: string)        // "enum 'Name'"
    | TupleOf(count: nat)            // "tuple with N elements"
    | AtLeastOneElement              // "array with at least 1 element"

  /** What a failed type check found instead. */
  datatype Found =
    | KindOf(kind: MonValueKind)     // the Debug text of the value's kind
    | EnumNamedFound(name: string)   // "enum 'Name'"
    | TupleOfFound(count: nat)       // "tuple with N elements"
    | EmptyArray                     // "empty array"

  datatype ValidationError =
    | TypeMismatch(fieldName: string, expected: Expected, found: Found, span: Span)
    | MissingField(fieldName: string, structName: string, span: Span)
    | UnexpectedField(fieldName: string, structName: string, span: Span)
    | UndefinedType(typeName: string, span: Span)
    | UndefinedEnumVariant(variantName: string, enumName: string, span: Span)
    | UnimplementedCollectionValidation(fieldName: string, span: Span)

  datatype ResolverError =
    | ModuleNotFound(path: string, span: Span)
    | AnchorNotFound(name: string, span: Span)
    | SpreadOnNonObject(name: string, span: Span)
    | SpreadOnNonArray(name: string, span: Span)
    | CircularDependency(cycle: string, span: Span)
    | WrappedParserError(parserError: ParserError)
    | Validation(validationError: ValidationError)
      /** The source indexes an empty slice and the thread panics. */
    | IndexPanic(fieldName: string)
      /** The expansion or validation did not finish within the given recursion budget. */
    | OutOfFuel
}

/**
 * The abstract syntax tree of a MON document, as the parser builds it and the
 * resolver, serializer and position queries consume it.
 *
 * Every node carries the byte range it was parsed from. A diagnostic span
 * (offset, length) is held here by its two ends: `Span(start, end)` stands for
 * offset `start` and length `end - start`.
 */
module Ast {
  import opened Common

  /** A half-open byte range `[start, end)` of the source text. */
  datatype Span = Span(start: nat, end: nat)
  {
    /** `p` lies inside the range. */
    predicate Contains(p: nat) { start <= p < end }
  }

  /** A value together with the anchor it was declared with and its byte range. */
  datatype MonValue = MonValue(kind: MonValueKind, anchor: Option<string>, posStart: nat, posEnd: nat)
  {
    /** The value's own byte range. */
    function SourceSpan(): Span { Span(posStart, posEnd) }
  }

  /**
   * The kinds of value. Numbers keep their lexeme (floating point is not
   * modelled). `Alias`, `ArraySpread` and `SpreadMember` exist only before
   * resolution.
   */
  datatype MonValueKind =
    | String(text: string)
    | Number(lexeme: string)
    | Boolean(b: bool)
    | Null
    | Object(members: seq<Member>)
    | Array(elements: seq<MonValue>)
    | Alias(name: string)
    | EnumValue(enumName: string, variantName: string)
    | ArraySpread(spreadName: string)

  /** `key :: validation = value`. */
  datatype Pair = Pair(key: string, value: MonValue, validation: Option<TypeSpec>)

  /** What an object body may hold. */
  datatype Member =
    | PairMember(pair: Pair)
    | SpreadMember(anchorName: string)
    | TypeDefMember(definition: TypeDefinition)

  /** A written type: a name, a bracketed collection shape, or `T...` inside a collection. */
  datatype TypeSpec =
    | Simple(name: string, span: Span)
    | Collection(types: seq<TypeSpec>, span: Span)
    | SpreadOf(inner: TypeSpec, span: Span)
  {
    function GetSpan(): Span
    {
      match this
      case Simple(_, s) => s
      case Collection(_, s) => s
      case SpreadOf(_, s) => s
    }
  }

  datatype FieldDef = FieldDef(name: string, typeSpec: TypeSpec, defaultValue: Option<MonValue>)

  /** The body of `#struct { ... }` or `#enum { ... }` with its byte range. */
  datatype TypeDef =
    | Struct(fields: seq<FieldDef>, posStart: nat, posEnd: nat)
    | Enum(variants: seq<string>, posStart: nat, posEnd: nat)
  {
    function GetSpan(): Span { Span(posStart, posEnd) }
  }

  /** `Name: #struct {...}` or `Name: #enum {...}` written as an object member. */
  datatype TypeDefinition = TypeDefinition(name: string, nameSpan: Span, defType: TypeDef, posStart: nat, posEnd: nat)

  datatype ImportSpecifier = ImportSpecifier(name: string, isAnchor: bool)

  datatype ImportSpec = Namespace(alias: string) | Named(specifiers: seq<ImportSpecifier>)

  datatype ImportStatement = ImportStatement(path: string, spec: ImportSpec, posStart: nat, posEnd: nat)

  /** A whole file: its imports and its root object. */
  datatype MonDocument = MonDocument(root: MonValue, imports: seq<ImportStatement>)

  /** True when the member is a pair with the given key. */
  predicate IsPairWithKey(m: Member, key: string)
  {
    m.PairMember? && m.pair.key == key
  }

  // ---------------------------------------------------------------------
  // Sizes (termination measures)
  // ---------------------------------------------------------------------

  function ValueSize(v: MonValue): nat
  {
    match v.kind
    case Object(ms) => 1 + MembersSize(ms)
    case Array(es) => 1 + ElementsSize(es)
    case _ => 1
  }

  function MembersSize(ms: seq<Member>): nat
  {
    if ms == [] then 0 else MemberSize(ms[0]) + MembersSize(ms[1..])
  }

  function MemberSize(m: Member): nat
  {
    match m
    case PairMember(p) => 1 + ValueSize(p.value)
    case _ => 1
  }

  function ElementsSize(es: seq<MonValue>): nat
  {
    if es == [] then 0 else ValueSize(es[0]) + ElementsSize(es[1..])
  }
}

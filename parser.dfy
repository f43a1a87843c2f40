/**
 * The MON parser: recursive descent over the significant tokens (whitespace
 * and comments removed) with a cursor that only moves forward.
 *
 * The functions `...At(st, p)` say what the parse rule of the same name
 * produces when the cursor is at token `p`: the node and the cursor after it,
 * or the first error (the parser never recovers). The `Parser` class is the
 * parser itself; each of its methods is proved to agree with its function.
 */
module Parser {
  import opened Common
  import opened Ast
  import opened Errors
  import L = Lexer

  /** The parser's input: the significant tokens and the byte length of the source text. */
  datatype Stream = Stream(tokens: seq<L.Token>, sourceLength: nat)

  /** A parsed node together with the cursor just after it. */
  datatype Parsed<T> = Parsed(value: T, next: nat)

  type PResult<T> = Result<Parsed<T>, ParserError>

  // ---------------------------------------------------------------------
  // Token kinds
  // ---------------------------------------------------------------------

  /** The Debug text of a token type that carries no payload, as `expect` reports it. */
  function KindName(t: L.TokenType): string
  {
    match t
    case Eof => "Eof" case Whitespace => "Whitespace" case Comment(_) => "Comment" case Unknown => "Unknown"
    case Identifier(_) => "Identifier" case String(_) => "String" case Number(_) => "Number"
    case True => "True" case False => "False" case Null => "Null" case Import => "Import"
    case From => "From" case As => "As" case LBrace => "LBrace" case RBrace => "RBrace"
    case LBracket => "LBracket" case RBracket => "RBracket" case LParen => "LParen" case RParen => "RParen"
    case Comma => "Comma" case Colon => "Colon" case DoubleColon => "DoubleColon" case Dot => "Dot"
    case Equals => "Equals" case Hash => "Hash" case Dollar => "Dollar" case Ampersand => "Ampersand"
    case Asterisk => "Asterisk" case Spread => "Spread"
  }

  /** Whether two token types are the same variant, payloads ignored (Rust's `mem::discriminant` equality). */
  predicate SameKind(a: L.TokenType, b: L.TokenType)
  {
    match b
    case Eof => a.Eof? case Whitespace => a.Whitespace? case Comment(_) => a.Comment? case Unknown => a.Unknown?
    case Identifier(_) => a.Identifier? case String(_) => a.String? case Number(_) => a.Number?
    case True => a.True? case False => a.False? case Null => a.Null? case Import => a.Import?
    case From => a.From? case As => a.As? case LBrace => a.LBrace? case RBrace => a.RBrace?
    case LBracket => a.LBracket? case RBracket => a.RBracket? case LParen => a.LParen? case RParen => a.RParen?
    case Comma => a.Comma? case Colon => a.Colon? case DoubleColon => a.DoubleColon? case Dot => a.Dot?
    case Equals => a.Equals? case Hash => a.Hash? case Dollar => a.Dollar? case Ampersand => a.Ampersand?
    case Asterisk => a.Asterisk? case Spread => a.Spread?
  }

  // ---------------------------------------------------------------------
  // Cursor helpers
  // ---------------------------------------------------------------------

  /** Where an unexpected end of input is reported: the last byte of the source, length 0. */
  function EofSpan(st: Stream): Span
  {
    var q := if st.sourceLength > 0 then st.sourceLength - 1 else 0;
    Span(q, q)
  }

  /** `current_token`: the token under the cursor, or UnexpectedEof past the end. */
  function CurrentAt(st: Stream, p: nat): (r: Result<L.Token, ParserError>)
    ensures r.Ok? <==> p < |st.tokens|
    ensures r.Ok? ==> r.value == st.tokens[p]
    ensures r.Err? ==> r.error == UnexpectedEof(EofSpan(st))
  {
    if p < |st.tokens| then Ok(st.tokens[p]) else Err(UnexpectedEof(EofSpan(st)))
  }

  /** `current_token_before_advance`: the token just before the cursor (the first one at 0). */
  function BeforeCursorAt(st: Stream, p: nat): Result<L.Token, ParserError>
  {
    var q := if p > 0 then p - 1 else 0;
    if q < |st.tokens| then Ok(st.tokens[q]) else Err(UnexpectedEof(EofSpan(st)))
  }

  /** `check`: the token under the cursor has the given kind. */
  predicate CheckAt(st: Stream, p: nat, kind: L.TokenType)
  {
    p < |st.tokens| && SameKind(st.tokens[p].ttype, kind)
  }

  /** `advance`: one token forward, never past the end. */
  function AdvanceFrom(st: Stream, p: nat): (q: nat)
    requires p <= |st.tokens|
    ensures q <= |st.tokens| && (q == p + 1 || (q == p == |st.tokens|))
  {
    if p < |st.tokens| then p + 1 else p
  }

  /** `err_unexpected`: UnexpectedToken at the token under the cursor, or UnexpectedEof past the end. */
  function UnexpectedErrorAt(st: Stream, p: nat, expected: string): ParserError
  {
    if p < |st.tokens| then UnexpectedToken(Span(st.tokens[p].posStart, st.tokens[p].posEnd), expected)
    else UnexpectedEof(EofSpan(st))
  }

  function UnexpectedAt<T>(st: Stream, p: nat, expected: string): PResult<T>
  {
    Err(UnexpectedErrorAt(st, p, expected))
  }

  /** `expect`: consumes a token of the given kind, otherwise reports the kind's name. */
  function ExpectAt(st: Stream, p: nat, kind: L.TokenType): (r: PResult<()>)
    requires p <= |st.tokens|
    ensures r.Ok? <==> CheckAt(st, p, kind)
    ensures r.Ok? ==> r.value.next == p + 1
  {
    if p >= |st.tokens| then Err(UnexpectedEof(EofSpan(st)))
    else if SameKind(st.tokens[p].ttype, kind) then Ok(Parsed((), p + 1))
    else UnexpectedAt(st, p, KindName(kind))
  }

  // ---------------------------------------------------------------------
  // Keys, anchors, aliases, enum values
  // ---------------------------------------------------------------------

  /** The tokens `[p, e)` are pairs of a Dot and an Identifier. */
  predicate DottedTail(st: Stream, p: nat, e: nat)
    requires p <= e <= |st.tokens|
    decreases e - p
  {
    p == e || (p + 2 <= e && CheckAt(st, p, L.Dot) && st.tokens[p + 1].ttype.Identifier? && DottedTail(st, p + 2, e))
  }

  /** The names of the identifiers of a dotted tail, in order. */
  function TailNames(st: Stream, p: nat, e: nat): seq<string>
    requires p <= e <= |st.tokens| && DottedTail(st, p, e)
    decreases e - p
  {
    if p == e then [] else [st.tokens[p + 1].ttype.name] + TailNames(st, p + 2, e)
  }

  /** The `.Identifier` parts after the first part of a key; the parts are joined with `.`. */
  function KeyPartsAfter(st: Stream, p: nat, parts: seq<string>): (r: PResult<string>)
    requires p <= |st.tokens|
    ensures r.Ok? ==> p <= r.value.next <= |st.tokens| && !CheckAt(st, r.value.next, L.Dot)
    decreases |st.tokens| - p
  {
    if CheckAt(st, p, L.Dot) then
      var t :- CurrentAt(st, p + 1);
      if t.ttype.Identifier? then KeyPartsAfter(st, p + 2, parts + [t.ttype.name])
      else UnexpectedAt(st, p + 1, "an identifier after a dot in a key")
    else Ok(Parsed(Join(parts, "."), p))
  }

  /** The dotted loop reads Dot-Identifier pairs and joins all the parts read with `.`. */
  lemma {:induction false} KeyPartsText(st: Stream, p: nat, parts: seq<string>)
    requires p <= |st.tokens|
    ensures var r := KeyPartsAfter(st, p, parts);
            r.Ok? ==> DottedTail(st, p, r.value.next) && r.value.value == Join(parts + TailNames(st, p, r.value.next), ".")
    decreases |st.tokens| - p
  {
    var r := KeyPartsAfter(st, p, parts);
    if CheckAt(st, p, L.Dot) && p + 1 < |st.tokens| && st.tokens[p + 1].ttype.Identifier? {
      var name := st.tokens[p + 1].ttype.name;
      KeyPartsText(st, p + 2, parts + [name]);
      if r.Ok? {
        assert parts + [name] + TailNames(st, p + 2, r.value.next) == parts + TailNames(st, p, r.value.next);
      }
    } else if !CheckAt(st, p, L.Dot) {
      assert parts + TailNames(st, p, p) == parts;
    }
  }

  /** The text of the token that starts a key: an identifier's name or a string's contents. */
  function KeyHead(t: L.Token): string
    requires t.ttype.Identifier? || t.ttype.String?
  {
    if t.ttype.Identifier? then t.ttype.name else t.ttype.value
  }

  /** `parse_key`: an identifier or string, then any number of `.Identifier` parts. */
  function KeyAt(st: Stream, p: nat): (r: PResult<string>)
    requires p <= |st.tokens|
    ensures r.Ok? ==> p < r.value.next <= |st.tokens| && !CheckAt(st, r.value.next, L.Dot)
  {
    var t :- CurrentAt(st, p);
    if t.ttype.Identifier? then KeyPartsAfter(st, p + 1, [t.ttype.name])
    else if t.ttype.String? then KeyPartsAfter(st, p + 1, [t.ttype.value])
    else UnexpectedAt(st, p, "an identifier or string for a key")
  }

  /**
   * A key is an identifier or string followed by Dot-Identifier pairs, and its
   * text is their names joined with `.`; any other first token is not a key.
   */
  lemma KeyText(st: Stream, p: nat)
    requires p <= |st.tokens|
    ensures var r := KeyAt(st, p);
            r.Ok? ==> && (st.tokens[p].ttype.Identifier? || st.tokens[p].ttype.String?)
                      && DottedTail(st, p + 1, r.value.next)
                      && r.value.value == Join([KeyHead(st.tokens[p])] + TailNames(st, p + 1, r.value.next), ".")
    ensures p < |st.tokens| && !st.tokens[p].ttype.Identifier? && !st.tokens[p].ttype.String? ==>
      KeyAt(st, p) == UnexpectedAt(st, p, "an identifier or string for a key")
  {
    if p < |st.tokens| && (st.tokens[p].ttype.Identifier? || st.tokens[p].ttype.String?) {
      KeyPartsText(st, p + 1, [KeyHead(st.tokens[p])]);
    }
  }

  /** `parse_optional_anchor`: `& Identifier`, or nothing. */
  function OptionalAnchorAt(st: Stream, p: nat): (r: PResult<Option<string>>)
    requires p <= |st.tokens|
    ensures r.Ok? ==> r.value.next == (if CheckAt(st, p, L.Ampersand) then p + 2 else p) <= |st.tokens|
    ensures r.Ok? ==> (r.value.value.Some? <==> CheckAt(st, p, L.Ampersand))
  {
    if CheckAt(st, p, L.Ampersand) then
      var t :- CurrentAt(st, p + 1);
      if t.ttype.Identifier? then Ok(Parsed(Some(t.ttype.name), p + 2))
      else UnexpectedAt(st, p + 1, "an identifier for the anchor name")
    else Ok(Parsed(None, p))
  }

  /**
   * `parse_alias`: `*` and a key, spanning from the `*` to the key's last token.
   * (The source's loop over further `.` parts never runs: `parse_key` only
   * stops before a token that is not a Dot.)
   */
  function AliasAt(st: Stream, p: nat): (r: PResult<MonValue>)
    requires p <= |st.tokens|
    ensures r.Ok? ==> p < r.value.next <= |st.tokens|
    ensures r.Ok? ==> r.value.value.kind.Alias? && r.value.value.anchor.None?
    ensures r.Ok? ==> r.value.value.posStart == st.tokens[p].posStart
                      && r.value.value.posEnd == st.tokens[r.value.next - 1].posEnd
  {
    var start :- CurrentAt(st, p);
    var star :- ExpectAt(st, p, L.Asterisk);
    var name :- KeyAt(st, p + 1);
    match BeforeCursorAt(st, name.next)
    case Ok(last) => Ok(Parsed(MonValue(Alias(name.value), None, start.posStart, last.posEnd), name.next))
  }

  /** `parse_spread`: `...` and an alias; the result is the alias's name. */
  function SpreadAt(st: Stream, p: nat): (r: PResult<string>)
    requires p <= |st.tokens|
    ensures r.Ok? ==> p + 1 < r.value.next <= |st.tokens|
  {
    var dots :- ExpectAt(st, p, L.Spread);
    var alias :- AliasAt(st, p + 1);
    Ok(Parsed(alias.value.kind.name, alias.next))
  }

  /** `parse_enum_value`: `$ Identifier . Identifier`. */
  function EnumValueAt(st: Stream, p: nat): (r: PResult<MonValue>)
    requires p <= |st.tokens|
    ensures r.Ok? ==> r.value.next == p + 4 <= |st.tokens|
    ensures r.Ok? ==> r.value.value.kind.EnumValue? && r.value.value.anchor.None?
    ensures r.Ok? ==> r.value.value.posStart == st.tokens[p].posStart
                      && r.value.value.posEnd == st.tokens[r.value.next - 1].posEnd
  {
    var start :- CurrentAt(st, p);
    var dollar :- ExpectAt(st, p, L.Dollar);
    var enumToken :- CurrentAt(st, p + 1);
    if !enumToken.ttype.Identifier? then UnexpectedAt(st, p + 1, "an identifier for enum name")
    else
      var dot :- ExpectAt(st, p + 2, L.Dot);
      var variantToken :- CurrentAt(st, p + 3);
      if !variantToken.ttype.Identifier? then UnexpectedAt(st, p + 3, "an identifier for enum variant")
      else
        Ok(Parsed(MonValue(EnumValue(enumToken.ttype.name, variantToken.ttype.name), None,
                           start.posStart, variantToken.posEnd), p + 4))
  }

  // ---------------------------------------------------------------------
  // Type specs
  // ---------------------------------------------------------------------

  /**
   * `parse_type_spec`: a bracketed collection of type specs, or a key naming a
   * type. Either way the span runs from the first token to the last one consumed.
   */
  function TypeSpecAt(st: Stream, p: nat): (r: PResult<TypeSpec>)
    requires p <= |st.tokens|
    ensures r.Ok? ==> p < r.value.next <= |st.tokens|
    ensures r.Ok? ==> r.value.value.GetSpan() == Span(st.tokens[p].posStart, st.tokens[r.value.next - 1].posEnd)
    ensures r.Ok? ==> (r.value.value.Collection? <==> CheckAt(st, p, L.LBracket)) && !r.value.value.SpreadOf?
    decreases |st.tokens| - p, 0
  {
    var start :- CurrentAt(st, p);
    if CheckAt(st, p, L.LBracket) then
      var types :- TypeSpecsAt(st, p + 1);
      var last :- CurrentAt(st, types.next);
      var close :- ExpectAt(st, types.next, L.RBracket);
      Ok(Parsed(Collection(types.value, Span(start.posStart, last.posEnd)), close.next))
    else
      var name :- KeyAt(st, p);
      match BeforeCursorAt(st, name.next)
      case Ok(last) => Ok(Parsed(Simple(name.value, Span(start.posStart, last.posEnd)), name.next))
  }

  /** The element types of a collection type after its `[`: none when `]` follows, else the loop. */
  function TypeSpecsAt(st: Stream, p: nat): (r: PResult<seq<TypeSpec>>)
    requires p <= |st.tokens|
    ensures r.Ok? ==> p <= r.value.next <= |st.tokens|
    decreases |st.tokens| - p, 3
  {
    if CheckAt(st, p, L.RBracket) then Ok(Parsed([], p)) else TypeSpecListAt(st, p, [])
  }

  /** One element of a collection type: a type spec, wrapped as a spread when `...` follows. */
  function TypeSpecItemAt(st: Stream, p: nat): (r: PResult<TypeSpec>)
    requires p <= |st.tokens|
    ensures r.Ok? ==> p < r.value.next <= |st.tokens|
    decreases |st.tokens| - p, 1
  {
    var spec :- TypeSpecAt(st, p);
    if CheckAt(st, spec.next, L.Spread) then
      (match BeforeCursorAt(st, spec.next + 1)
       case Ok(last) => Ok(Parsed(SpreadOf(spec.value, Span(spec.value.GetSpan().start, last.posEnd)), spec.next + 1)))
    else Ok(spec)
  }

  /**
   * One element of a collection type parses exactly when its type spec does;
   * it is a spread exactly when `...` follows, wrapping that type spec and
   * consuming the `...`, and is otherwise that type spec.
   */
  lemma TypeSpecItemSpread(st: Stream, p: nat)
    requires p <= |st.tokens|
    ensures var r := TypeSpecItemAt(st, p);
            && (r.Ok? <==> TypeSpecAt(st, p).Ok?)
            && (r.Ok? ==> (r.value.value.SpreadOf? <==> CheckAt(st, TypeSpecAt(st, p).value.next, L.Spread)))
            && (r.Ok? && r.value.value.SpreadOf? ==>
                  r.value.value.inner == TypeSpecAt(st, p).value.value && r.value.next == TypeSpecAt(st, p).value.next + 1)
            && (r.Ok? && !r.value.value.SpreadOf? ==> r == TypeSpecAt(st, p))
  {
  }

  /**
   * The loop of a collection type: an element, then a comma and more, or a
   * trailing comma before `]`, or the end.
   */
  function TypeSpecListAt(st: Stream, p: nat, acc: seq<TypeSpec>): (r: PResult<seq<TypeSpec>>)
    requires p <= |st.tokens|
    ensures r.Ok? ==> p < r.value.next <= |st.tokens| && |acc| < |r.value.value|
    decreases |st.tokens| - p, 2
  {
    var item :- TypeSpecItemAt(st, p);
    var items := acc + [item.value];
    if !CheckAt(st, item.next, L.Comma) then Ok(Parsed(items, item.next))
    else if CheckAt(st, item.next + 1, L.RBracket) then Ok(Parsed(items, item.next + 1))
    else TypeSpecListAt(st, item.next + 1, items)
  }

  /** `parse_optional_validation`: `:: Type`, or nothing. */
  function OptionalValidationAt(st: Stream, p: nat): (r: PResult<Option<TypeSpec>>)
    requires p <= |st.tokens|
    ensures r.Ok? ==> p <= r.value.next <= |st.tokens|
  {
    if CheckAt(st, p, L.DoubleColon) then
      var spec :- TypeSpecAt(st, p + 1);
      Ok(Parsed(Some(spec.value), spec.next))
    else Ok(Parsed(None, p))
  }

  // ---------------------------------------------------------------------
  // Values, objects, arrays, members
  // ---------------------------------------------------------------------

  /**
   * `parse_value`: an optional anchor, then an object, array, literal, alias or
   * enum value; the anchor (or None) is attached to the value.
   */
  function ValueAt(st: Stream, p: nat): (r: PResult<MonValue>)
    requires p <= |st.tokens|
    ensures r.Ok? ==> (if CheckAt(st, p, L.Ampersand) then p + 2 else p) < r.value.next <= |st.tokens|
    ensures r.Ok? ==> r.value.value.posEnd == st.tokens[r.value.next - 1].posEnd
    ensures r.Ok? ==> r.value.value.posStart == st.tokens[if CheckAt(st, p, L.Ampersand) then p + 2 else p].posStart
    ensures r.Ok? ==> OptionalAnchorAt(st, p).Ok? && r.value.value.anchor == OptionalAnchorAt(st, p).value.value
    decreases |st.tokens| - p, 2
  {
    var anchor :- OptionalAnchorAt(st, p);
    var v :- BareValueAt(st, anchor.next);
    Ok(Parsed(v.value.(anchor := anchor.value), v.next))
  }

  /** The value `parse_value` reads after the optional anchor, chosen by the kind of its first token. */
  function BareValueAt(st: Stream, p: nat): (r: PResult<MonValue>)
    requires p <= |st.tokens|
    ensures r.Ok? ==> p < r.value.next <= |st.tokens|
    ensures r.Ok? ==> r.value.value.posStart == st.tokens[p].posStart
                      && r.value.value.posEnd == st.tokens[r.value.next - 1].posEnd
    decreases |st.tokens| - p, 1
  {
    var start :- CurrentAt(st, p);
    match start.ttype
    case LBrace => ObjectAt(st, p)
    case LBracket => ArrayAt(st, p)
    case String(s) => Ok(Parsed(MonValue(String(s), None, start.posStart, start.posEnd), p + 1))
    case Number(n) => Ok(Parsed(MonValue(Number(n), None, start.posStart, start.posEnd), p + 1))
    case True => Ok(Parsed(MonValue(Boolean(true), None, start.posStart, start.posEnd), p + 1))
    case False => Ok(Parsed(MonValue(Boolean(false), None, start.posStart, start.posEnd), p + 1))
    case Null => Ok(Parsed(MonValue(Null, None, start.posStart, start.posEnd), p + 1))
    case Asterisk => AliasAt(st, p)
    case Dollar => EnumValueAt(st, p)
    case _ => UnexpectedAt(st, p, "a value")
  }

  /** `parse_object`: `{`, members separated by commas with an optional trailing comma, `}`. */
  function ObjectAt(st: Stream, p: nat): (r: PResult<MonValue>)
    requires p <= |st.tokens|
    ensures r.Ok? ==> p < r.value.next <= |st.tokens|
    ensures r.Ok? ==> r.value.value.kind.Object? && r.value.value.anchor.None?
    ensures r.Ok? ==> r.value.value.posStart == st.tokens[p].posStart
                      && r.value.value.posEnd == st.tokens[r.value.next - 1].posEnd
    decreases |st.tokens| - p, 0
  {
    var start :- CurrentAt(st, p);
    var open :- ExpectAt(st, p, L.LBrace);
    var members :- MemberListAt(st, p + 1);
    var last :- CurrentAt(st, members.next);
    var close :- ExpectAt(st, members.next, L.RBrace);
    Ok(Parsed(MonValue(Object(members.value), None, start.posStart, last.posEnd), close.next))
  }

  /** The members of an object after its `{`: none when `}` follows, else a first member and the loop. */
  function MemberListAt(st: Stream, p: nat): (r: PResult<seq<Member>>)
    requires p <= |st.tokens|
    ensures r.Ok? ==> p <= r.value.next <= |st.tokens|
    decreases |st.tokens| - p, 2
  {
    if CheckAt(st, p, L.RBrace) then Ok(Parsed([], p))
    else
      var first :- MemberAt(st, p);
      MembersAfter(st, first.next, [first.value])
  }

  /** The object loop: while a comma follows, stop at `}` (trailing comma) or parse another member. */
  function MembersAfter(st: Stream, p: nat, acc: seq<Member>): (r: PResult<seq<Member>>)
    requires p <= |st.tokens|
    ensures r.Ok? ==> p <= r.value.next <= |st.tokens| && |acc| <= |r.value.value|
    ensures r.Ok? ==> r.value.value[..|acc|] == acc
    decreases |st.tokens| - p, 0
  {
    if CheckAt(st, p, L.Comma) then
      if CheckAt(st, p + 1, L.RBrace) then Ok(Parsed(acc, p + 1))
      else
        var m :- MemberAt(st, p + 1);
        var rest :- MembersAfter(st, m.next, acc + [m.value]);
        assert rest.value[..|acc| + 1][..|acc|] == rest.value[..|acc|];
        Ok(rest)
    else Ok(Parsed(acc, p))
  }

  /** `parse_array`: `[`, elements or `...*name` spreads separated by commas, optional trailing comma, `]`. */
  function ArrayAt(st: Stream, p: nat): (r: PResult<MonValue>)
    requires p <= |st.tokens|
    ensures r.Ok? ==> p < r.value.next <= |st.tokens|
    ensures r.Ok? ==> r.value.value.kind.Array? && r.value.value.anchor.None?
    ensures r.Ok? ==> r.value.value.posStart == st.tokens[p].posStart
                      && r.value.value.posEnd == st.tokens[r.value.next - 1].posEnd
    decreases |st.tokens| - p, 0
  {
    var start :- CurrentAt(st, p);
    var open :- ExpectAt(st, p, L.LBracket);
    var elements :- ElementsAt(st, p + 1);
    var last :- CurrentAt(st, elements.next);
    var close :- ExpectAt(st, elements.next, L.RBracket);
    Ok(Parsed(MonValue(Array(elements.value), None, start.posStart, last.posEnd), close.next))
  }

  /** An array spread element: the spread, spanning from `...` to the alias's last token. */
  function ArraySpreadAt(st: Stream, p: nat): (r: PResult<MonValue>)
    requires p <= |st.tokens|
    ensures r.Ok? ==> p < r.value.next <= |st.tokens| && r.value.value.kind.ArraySpread?
  {
    var start :- CurrentAt(st, p);
    var name :- SpreadAt(st, p);
    match BeforeCursorAt(st, name.next)
    case Ok(last) => Ok(Parsed(MonValue(ArraySpread(name.value), None, start.posStart, last.posEnd), name.next))
  }

  /** The elements of an array after its `[`: none when `]` follows, else the loop. */
  function ElementsAt(st: Stream, p: nat): (r: PResult<seq<MonValue>>)
    requires p <= |st.tokens|
    ensures r.Ok? ==> p <= r.value.next <= |st.tokens|
    decreases |st.tokens| - p, 5
  {
    if CheckAt(st, p, L.RBracket) then Ok(Parsed([], p)) else ElementListAt(st, p, [])
  }

  /** The array loop: an element, then a comma and more, or a trailing comma before `]`, or the end. */
  function ElementListAt(st: Stream, p: nat, acc: seq<MonValue>): (r: PResult<seq<MonValue>>)
    requires p <= |st.tokens|
    ensures r.Ok? ==> p < r.value.next <= |st.tokens|
    decreases |st.tokens| - p, 4
  {
    var item :- ElementAt(st, p);
    var items := acc + [item.value];
    if !CheckAt(st, item.next, L.Comma) then Ok(Parsed(items, item.next))
    else if CheckAt(st, item.next + 1, L.RBracket) then Ok(Parsed(items, item.next + 1))
    else ElementListAt(st, item.next + 1, items)
  }

  /** One array element: a spread at `...`, a value otherwise. */
  function ElementAt(st: Stream, p: nat): (r: PResult<MonValue>)
    requires p <= |st.tokens|
    ensures r.Ok? ==> p < r.value.next <= |st.tokens|
    ensures r.Ok? ==> (r.value.value.kind.ArraySpread? <== CheckAt(st, p, L.Spread))
    decreases |st.tokens| - p, 3
  {
    if CheckAt(st, p, L.Spread) then ArraySpreadAt(st, p) else ValueAt(st, p)
  }

  /**
   * `parse_member`: a spread at `...`; a type definition when an Identifier is
   * followed by `:` and then `#`; a pair otherwise.
   */
  function MemberAt(st: Stream, p: nat): (r: PResult<Member>)
    requires p <= |st.tokens|
    ensures r.Ok? ==> p < r.value.next <= |st.tokens|
    ensures r.Ok? ==> (r.value.value.SpreadMember? <==> st.tokens[p].ttype.Spread?)
    ensures r.Ok? ==> (r.value.value.TypeDefMember? <==>
                       st.tokens[p].ttype.Identifier? && CheckAt(st, p + 1, L.Colon) && CheckAt(st, p + 2, L.Hash))
    decreases |st.tokens| - p, 1
  {
    var t :- CurrentAt(st, p);
    if t.ttype.Spread? then
      var name :- SpreadAt(st, p);
      Ok(Parsed(SpreadMember(name.value), name.next))
    else if t.ttype.Identifier? && CheckAt(st, p + 1, L.Colon) && CheckAt(st, p + 2, L.Hash) then
      var def :- TypeDefinitionAt(st, p);
      Ok(Parsed(TypeDefMember(def.value), def.next))
    else
      var pair :- PairAt(st, p);
      Ok(Parsed(PairMember(pair.value), pair.next))
  }

  /**
   * `parse_pair`: `[&] key [:: Type] (: | =) value`. When the key is written
   * `&key`, the key also names the value's anchor, overriding an anchor written
   * before the value.
   */
  function PairAt(st: Stream, p: nat): (r: PResult<Pair>)
    requires p <= |st.tokens|
    ensures r.Ok? ==> p < r.value.next <= |st.tokens|
    ensures r.Ok? && CheckAt(st, p, L.Ampersand) ==> r.value.value.value.anchor == Some(r.value.value.key)
    decreases |st.tokens| - p, 0
  {
    var keyFromAnchor := CheckAt(st, p, L.Ampersand);
    var key :- KeyAt(st, if keyFromAnchor then p + 1 else p);
    var validation :- OptionalValidationAt(st, key.next);
    var separator :- SeparatorAt(st, validation.next);
    var v :- ValueAt(st, separator.next);
    var value := if keyFromAnchor then v.value.(anchor := Some(key.value)) else v.value;
    Ok(Parsed(Pair(key.value, value, validation.value), v.next))
  }

  /** The `:` or `=` between a key and its value. */
  function SeparatorAt(st: Stream, p: nat): (r: PResult<()>)
    requires p <= |st.tokens|
    ensures r.Ok? <==> CheckAt(st, p, L.Colon) || CheckAt(st, p, L.Equals)
    ensures r.Ok? ==> r.value.next == p + 1
  {
    if !CheckAt(st, p, L.Colon) && !CheckAt(st, p, L.Equals) then UnexpectedAt(st, p, "':' or '=' after key")
    else Ok(Parsed((), p + 1))
  }

  // ---------------------------------------------------------------------
  // Type definitions
  // ---------------------------------------------------------------------

  /**
   * `parse_type_definition`: `Name : # struct {...}` or `Name : # enum {...}`.
   * The definition body's range starts at the `#`; the whole definition's at the name.
   */
  function TypeDefinitionAt(st: Stream, p: nat): (r: PResult<TypeDefinition>)
    requires p <= |st.tokens|
    ensures r.Ok? ==> p < r.value.next <= |st.tokens|
    decreases |st.tokens| - p, 0
  {
    var nameToken :- CurrentAt(st, p);
    var name :- KeyAt(st, p);
    var colon :- ExpectAt(st, name.next, L.Colon);
    var hashToken :- CurrentAt(st, colon.next);
    var hash :- ExpectAt(st, colon.next, L.Hash);
    var def :- TypeBodyAt(st, hash.next);
    Ok(Parsed(TypeDefinition(name.value, Span(nameToken.posStart, nameToken.posEnd),
                             def.value.(posStart := hashToken.posStart), nameToken.posStart, def.value.posEnd),
              def.next))
  }

  /** After `#`: the `struct` or `enum` keyword and the body it introduces. */
  function TypeBodyAt(st: Stream, p: nat): (r: PResult<TypeDef>)
    requires p <= |st.tokens|
    ensures r.Ok? ==> p < r.value.next <= |st.tokens|
    ensures r.Ok? ==> p < |st.tokens| && (r.value.value.Struct? <==> st.tokens[p].ttype == L.Identifier("struct"))
    decreases |st.tokens| - p, 0
  {
    var t :- CurrentAt(st, p);
    if t.ttype == L.Identifier("struct") then StructDefinitionAt(st, p + 1)
    else if t.ttype == L.Identifier("enum") then EnumDefinitionAt(st, p + 1)
    else UnexpectedAt(st, p, "'struct' or 'enum' keyword")
  }

  /** `parse_struct_definition`: `{`, field definitions with an optional trailing comma, `}`. */
  function StructDefinitionAt(st: Stream, p: nat): (r: PResult<TypeDef>)
    requires p <= |st.tokens|
    ensures r.Ok? ==> p < r.value.next <= |st.tokens| && r.value.value.Struct?
    decreases |st.tokens| - p, 0
  {
    var start :- CurrentAt(st, p);
    var open :- ExpectAt(st, p, L.LBrace);
    var fields :- FieldsAt(st, p + 1);
    var last :- CurrentAt(st, fields.next);
    var close :- ExpectAt(st, fields.next, L.RBrace);
    Ok(Parsed(Struct(fields.value, start.posStart, last.posEnd), close.next))
  }

  /** The fields of a struct after its `{`: none when `}` follows, else the loop. */
  function FieldsAt(st: Stream, p: nat): (r: PResult<seq<FieldDef>>)
    requires p <= |st.tokens|
    ensures r.Ok? ==> p <= r.value.next <= |st.tokens|
    decreases |st.tokens| - p, 3
  {
    if CheckAt(st, p, L.RBrace) then Ok(Parsed([], p)) else FieldListAt(st, p, [])
  }

  /** The struct loop: a field, then a comma and more, or a trailing comma before `}`, or the end. */
  function FieldListAt(st: Stream, p: nat, acc: seq<FieldDef>): (r: PResult<seq<FieldDef>>)
    requires p <= |st.tokens|
    ensures r.Ok? ==> p < r.value.next <= |st.tokens|
    decreases |st.tokens| - p, 2
  {
    var field :- FieldDefinitionAt(st, p);
    var fields := acc + [field.value];
    if !CheckAt(st, field.next, L.Comma) then Ok(Parsed(fields, field.next))
    else if CheckAt(st, field.next + 1, L.RBrace) then Ok(Parsed(fields, field.next + 1))
    else FieldListAt(st, field.next + 1, fields)
  }

  /** `parse_field_definition`: `name ( Type ) [= value]`. */
  function FieldDefinitionAt(st: Stream, p: nat): (r: PResult<FieldDef>)
    requires p <= |st.tokens|
    ensures r.Ok? ==> p < r.value.next <= |st.tokens|
    decreases |st.tokens| - p, 1
  {
    var name :- KeyAt(st, p);
    FieldTypeAt(st, name.next, name.value)
  }

  /** What follows a field's name: `( Type )` and the optional `= value`. */
  function FieldTypeAt(st: Stream, p: nat, name: string): (r: PResult<FieldDef>)
    requires p <= |st.tokens|
    ensures r.Ok? ==> p < r.value.next <= |st.tokens| && r.value.value.name == name
    decreases |st.tokens| - p, 0
  {
    var lparen :- ExpectAt(st, p, L.LParen);
    var spec :- TypeSpecAt(st, lparen.next);
    var rparen :- ExpectAt(st, spec.next, L.RParen);
    var defaultValue :- DefaultValueAt(st, rparen.next);
    Ok(Parsed(FieldDef(name, spec.value, defaultValue.value), defaultValue.next))
  }

  /** The default of a field definition: `= value`, or nothing. */
  function DefaultValueAt(st: Stream, p: nat): (r: PResult<Option<MonValue>>)
    requires p <= |st.tokens|
    ensures r.Ok? ==> p <= r.value.next <= |st.tokens|
    ensures r.Ok? ==> (r.value.value.Some? <==> CheckAt(st, p, L.Equals))
    decreases |st.tokens| - p, 0
  {
    if CheckAt(st, p, L.Equals) then
      var v :- ValueAt(st, p + 1);
      Ok(Parsed(Some(v.value), v.next))
    else Ok(Parsed(None, p))
  }

  /** `parse_enum_definition`: `{`, variant names with an optional trailing comma, `}`. */
  function EnumDefinitionAt(st: Stream, p: nat): (r: PResult<TypeDef>)
    requires p <= |st.tokens|
    ensures r.Ok? ==> p < r.value.next <= |st.tokens| && r.value.value.Enum?
  {
    var start :- CurrentAt(st, p);
    var open :- ExpectAt(st, p, L.LBrace);
    var variants :- VariantsAt(st, p + 1);
    var last :- CurrentAt(st, variants.next);
    var close :- ExpectAt(st, variants.next, L.RBrace);
    Ok(Parsed(Enum(variants.value, start.posStart, last.posEnd), close.next))
  }

  /** The variants of an enum, entered after `{`: none when `}` follows at once. */
  function VariantsAt(st: Stream, p: nat): (r: PResult<seq<string>>)
    requires p <= |st.tokens|
    ensures r.Ok? ==> p <= r.value.next <= |st.tokens|
  {
    if CheckAt(st, p, L.RBrace) then Ok(Parsed([], p)) else VariantListAt(st, p, [])
  }

  /** The enum loop: a variant key, then a comma and more, or a trailing comma before `}`, or the end. */
  function VariantListAt(st: Stream, p: nat, acc: seq<string>): (r: PResult<seq<string>>)
    requires p <= |st.tokens|
    ensures r.Ok? ==> p < r.value.next <= |st.tokens|
    decreases |st.tokens| - p
  {
    var variant :- KeyAt(st, p);
    var variants := acc + [variant.value];
    if !CheckAt(st, variant.next, L.Comma) then Ok(Parsed(variants, variant.next))
    else if CheckAt(st, variant.next + 1, L.RBrace) then Ok(Parsed(variants, variant.next + 1))
    else VariantListAt(st, variant.next + 1, variants)
  }

  // ---------------------------------------------------------------------
  // Imports and the document
  // ---------------------------------------------------------------------

  /** An import specifier: `[&] key`, the `&` marking an anchor import. */
  function SpecifierAt(st: Stream, p: nat): (r: PResult<ImportSpecifier>)
    requires p <= |st.tokens|
    ensures r.Ok? ==> p < r.value.next <= |st.tokens|
    ensures r.Ok? ==> r.value.value.isAnchor == CheckAt(st, p, L.Ampersand)
  {
    var isAnchor := CheckAt(st, p, L.Ampersand);
    var name :- KeyAt(st, if isAnchor then p + 1 else p);
    Ok(Parsed(ImportSpecifier(name.value, isAnchor), name.next))
  }

  /** The named-import loop: a specifier, then a comma and more, or a trailing comma before `}`, or the end. */
  function SpecifierListAt(st: Stream, p: nat, acc: seq<ImportSpecifier>): (r: PResult<seq<ImportSpecifier>>)
    requires p <= |st.tokens|
    ensures r.Ok? ==> p < r.value.next <= |st.tokens|
    decreases |st.tokens| - p
  {
    var specifier :- SpecifierAt(st, p);
    var specifiers := acc + [specifier.value];
    if !CheckAt(st, specifier.next, L.Comma) then Ok(Parsed(specifiers, specifier.next))
    else if CheckAt(st, specifier.next + 1, L.RBrace) then Ok(Parsed(specifiers, specifier.next + 1))
    else SpecifierListAt(st, specifier.next + 1, specifiers)
  }

  /** What follows `import`: `* as name`, or `{ specifiers }`. */
  function ImportSpecAt(st: Stream, p: nat): (r: PResult<ImportSpec>)
    requires p <= |st.tokens|
    ensures r.Ok? ==> p < r.value.next <= |st.tokens|
    ensures r.Ok? ==> (r.value.value.Namespace? <==> CheckAt(st, p, L.Asterisk))
  {
    if CheckAt(st, p, L.Asterisk) then
      var as_ :- ExpectAt(st, p + 1, L.As);
      var name :- KeyAt(st, p + 2);
      Ok(Parsed(Namespace(name.value), name.next))
    else NamedImportAt(st, p)
  }

  /** A named import: `{`, specifiers with an optional trailing comma, `}`. */
  function NamedImportAt(st: Stream, p: nat): (r: PResult<ImportSpec>)
    requires p <= |st.tokens|
    ensures r.Ok? ==> p < r.value.next <= |st.tokens| && r.value.value.Named?
  {
    var open :- ExpectAt(st, p, L.LBrace);
    var specifiers :- if CheckAt(st, p + 1, L.RBrace) then Ok(Parsed([], p + 1))
                      else SpecifierListAt(st, p + 1, []);
    var close :- ExpectAt(st, specifiers.next, L.RBrace);
    Ok(Parsed(Named(specifiers.value), close.next))
  }

  /** `parse_import_statement`: `import * as name from path` or `import { ... } from path`. */
  function ImportStatementAt(st: Stream, p: nat): (r: PResult<ImportStatement>)
    requires p <= |st.tokens|
    ensures r.Ok? ==> p < r.value.next <= |st.tokens|
  {
    var start :- CurrentAt(st, p);
    var keyword :- ExpectAt(st, p, L.Import);
    var spec :- ImportSpecAt(st, p + 1);
    ImportSourceAt(st, spec.next, spec.value, start.posStart)
  }

  /** The end of an import statement: `from` and the path key, the statement ending at the path. */
  function ImportSourceAt(st: Stream, p: nat, spec: ImportSpec, posStart: nat): (r: PResult<ImportStatement>)
    requires p <= |st.tokens|
    ensures r.Ok? ==> p < r.value.next <= |st.tokens|
  {
    var from :- ExpectAt(st, p, L.From);
    var pathToken :- CurrentAt(st, from.next);
    var path :- KeyAt(st, from.next);
    Ok(Parsed(ImportStatement(path.value, spec, posStart, pathToken.posEnd), path.next))
  }

  /** The import loop of `parse_document`: import statements while the cursor is at `import`. */
  function ImportsFrom(st: Stream, p: nat, acc: seq<ImportStatement>): (r: PResult<seq<ImportStatement>>)
    requires p <= |st.tokens|
    ensures r.Ok? ==> p <= r.value.next <= |st.tokens| && !CheckAt(st, r.value.next, L.Import)
    decreases |st.tokens| - p
  {
    if CheckAt(st, p, L.Import) then
      var imp :- ImportStatementAt(st, p);
      ImportsFrom(st, imp.next, acc + [imp.value])
    else Ok(Parsed(acc, p))
  }

  /** `parse_document`: imports, then the root object, then Eof. */
  function DocumentAt(st: Stream, p: nat): (r: PResult<MonDocument>)
    requires p <= |st.tokens|
    ensures r.Ok? ==> p < r.value.next <= |st.tokens| && st.tokens[r.value.next - 1].ttype.Eof?
    ensures r.Ok? ==> r.value.value.root.kind.Object?
  {
    var imports :- ImportsFrom(st, p, []);
    var root :- ObjectAt(st, imports.next);
    var eof :- ExpectAt(st, root.next, L.Eof);
    Ok(Parsed(MonDocument(root.value, imports.value), eof.next))
  }

  /** A parse method's result together with the cursor it left, in the form the functions above use. */
  function Outcome<T>(r: Result<T, ParserError>, p: nat): PResult<T>
  {
    match r
    case Ok(v) => Ok(Parsed(v, p))
    case Err(e) => Err(e)
  }

  /** The tokens the parser keeps: all but Whitespace and Comment, in order. */
  function Significant(ts: seq<L.Token>): (r: seq<L.Token>)
    ensures forall k :: 0 <= k < |r| ==> !r[k].ttype.Whitespace? && !r[k].ttype.Comment?
    ensures forall t :: t in r <==> t in ts && !t.ttype.Whitespace? && !t.ttype.Comment?
  {
    if ts == [] then []
    else
      var last := ts[|ts| - 1];
      Significant(ts[..|ts| - 1]) + if last.ttype.Whitespace? || last.ttype.Comment? then [] else [last]
  }

  class Parser {
    const tokens: seq<L.Token>
    /** `source_text.len()`: the byte length of the source. */
    const sourceLength: nat
    var position: nat

    function Input(): Stream { Stream(tokens, sourceLength) }

    ghost predicate Valid()
      reads this
    {
      position <= |tokens|
    }

    /** `new_with_name`: lexes the source and keeps the significant tokens; the cursor starts at 0. */
    constructor (sourceText: string)
      ensures tokens == Significant(L.Lex(sourceText)) && sourceLength == L.Utf8Length(sourceText)
      ensures position == 0 && Valid()
    {
      var lexer := new L.Lexer(sourceText);
      var all := lexer.Lex();
      tokens := Significant(all);
      sourceLength := L.Utf8Length(sourceText);
      position := 0;
    }

    // -- cursor helpers ---------------------------------------------------

    method CurrentToken() returns (r: Result<L.Token, ParserError>)
      ensures r == CurrentAt(Input(), position)
    {
      if position < |tokens| {
        r := Ok(tokens[position]);
      } else {
        r := Err(UnexpectedEof(EofSpan(Input())));
      }
    }

    method CurrentTokenBeforeAdvance() returns (r: Result<L.Token, ParserError>)
      ensures r == BeforeCursorAt(Input(), position)
    {
      var q := if position > 0 then position - 1 else 0;
      if q < |tokens| {
        r := Ok(tokens[q]);
      } else {
        r := Err(UnexpectedEof(EofSpan(Input())));
      }
    }

    method Advance()
      requires Valid()
      modifies this
      ensures Valid() && position == AdvanceFrom(Input(), old(position))
    {
      if position < |tokens| {
        position := position + 1;
      }
    }

    function Check(kind: L.TokenType): bool
      reads this
    {
      CheckAt(Input(), position, kind)
    }

    function PeekIs(kind: L.TokenType): bool
      reads this
    {
      CheckAt(Input(), position + 1, kind)
    }

    function PeekNextIs(kind: L.TokenType): bool
      reads this
    {
      CheckAt(Input(), position + 2, kind)
    }

    method MatchToken(kind: L.TokenType) returns (matched: bool)
      requires Valid()
      modifies this
      ensures Valid() && matched == CheckAt(Input(), old(position), kind)
      ensures position == if matched then old(position) + 1 else old(position)
    {
      matched := Check(kind);
      if matched {
        Advance();
      }
    }

    method Expect(kind: L.TokenType) returns (r: Result<(), ParserError>)
      requires Valid()
      modifies this
      ensures Valid() && Outcome(r, position) == ExpectAt(Input(), old(position), kind)
    {
      var token :- CurrentToken();
      if SameKind(token.ttype, kind) {
        Advance();
        r := Ok(());
      } else {
        r := ErrUnexpected(KindName(kind));
      }
    }

    method ErrUnexpected<T>(expected: string) returns (r: Result<T, ParserError>)
      ensures r == Err(UnexpectedErrorAt(Input(), position, expected))
    {
      var token :- CurrentToken();
      r := Err(UnexpectedToken(Span(token.posStart, token.posEnd), expected));
    }

    // -- keys, anchors, aliases, enum values ------------------------------

    method ParseKey() returns (r: Result<string, ParserError>)
      requires Valid()
      modifies this
      ensures Valid() && Outcome(r, position) == KeyAt(Input(), old(position))
    {
      var token :- CurrentToken();
      var keyParts: seq<string>;
      if token.ttype.Identifier? {
        keyParts := [token.ttype.name];
        Advance();
      } else if token.ttype.String? {
        keyParts := [token.ttype.value];
        Advance();
      } else {
        r := ErrUnexpected("an identifier or string for a key");
        return;
      }
      while true
        invariant Valid()
        invariant KeyPartsAfter(Input(), position, keyParts) == KeyAt(Input(), old(position))
        decreases |tokens| - position
      {
        var dot := MatchToken(L.Dot);
        if !dot {
          break;
        }
        var part :- CurrentToken();
        if part.ttype.Identifier? {
          keyParts := keyParts + [part.ttype.name];
          Advance();
        } else {
          r := ErrUnexpected("an identifier after a dot in a key");
          return;
        }
      }
      r := Ok(Join(keyParts, "."));
    }

    method ParseOptionalAnchor() returns (r: Result<Option<string>, ParserError>)
      requires Valid()
      modifies this
      ensures Valid() && Outcome(r, position) == OptionalAnchorAt(Input(), old(position))
    {
      var amp := MatchToken(L.Ampersand);
      if amp {
        var token :- CurrentToken();
        if token.ttype.Identifier? {
          Advance();
          r := Ok(Some(token.ttype.name));
        } else {
          r := ErrUnexpected("an identifier for the anchor name");
        }
      } else {
        r := Ok(None);
      }
    }

    method ParseAlias() returns (r: Result<MonValue, ParserError>)
      requires Valid()
      modifies this
      ensures Valid() && Outcome(r, position) == AliasAt(Input(), old(position))
    {
      var startToken :- CurrentToken();
      var ok :- Expect(L.Asterisk);
      var name :- ParseKey();
      var last := CurrentTokenBeforeAdvance();
      if last.Err? { assert false; }
      r := Ok(MonValue(Alias(name), None, startToken.posStart, last.value.posEnd));
    }

    method ParseSpread() returns (r: Result<string, ParserError>)
      requires Valid()
      modifies this
      ensures Valid() && Outcome(r, position) == SpreadAt(Input(), old(position))
    {
      var ok :- Expect(L.Spread);
      var alias :- ParseAlias();
      r := Ok(alias.kind.name);
    }

    method ParseEnumValue() returns (r: Result<MonValue, ParserError>)
      requires Valid()
      modifies this
      ensures Valid() && Outcome(r, position) == EnumValueAt(Input(), old(position))
    {
      var startToken :- CurrentToken();
      var ok :- Expect(L.Dollar);
      var enumToken :- CurrentToken();
      if !enumToken.ttype.Identifier? {
        r := ErrUnexpected("an identifier for enum name");
        return;
      }
      Advance();
      ok :- Expect(L.Dot);
      var variantToken :- CurrentToken();
      if !variantToken.ttype.Identifier? {
        r := ErrUnexpected("an identifier for enum variant");
        return;
      }
      Advance();
      r := Ok(MonValue(EnumValue(enumToken.ttype.name, variantToken.ttype.name), None,
                       startToken.posStart, variantToken.posEnd));
    }

    // -- type specs -------------------------------------------------------

    method ParseTypeSpec() returns (r: Result<TypeSpec, ParserError>)
      requires Valid()
      modifies this
      ensures Valid() && Outcome(r, position) == TypeSpecAt(Input(), old(position))
      decreases |tokens| - position, 0
    {
      var startToken :- CurrentToken();
      if Check(L.LBracket) {
        var bracket := Expect(L.LBracket);
        if bracket.Err? { assert false; }
        var types :- ParseTypeSpecs();
        var last :- CurrentToken();
        var ok :- Expect(L.RBracket);
        r := Ok(Collection(types, Span(startToken.posStart, last.posEnd)));
      } else {
        var name :- ParseKey();
        var last := CurrentTokenBeforeAdvance();
        if last.Err? { assert false; }
        r := Ok(Simple(name, Span(startToken.posStart, last.value.posEnd)));
      }
    }

    // -- values ------------------------------------------------------------

    method ParseValue() returns (r: Result<MonValue, ParserError>)
      requires Valid()
      modifies this
      ensures Valid() && Outcome(r, position) == ValueAt(Input(), old(position))
      decreases |tokens| - position, 2
    {
      var anchor :- ParseOptionalAnchor();
      var value :- ParseBareValue();
      r := Ok(value.(anchor := anchor));
    }

    /** The `match` of `parse_value` on the token after the optional anchor. */
    method ParseBareValue() returns (r: Result<MonValue, ParserError>)
      requires Valid()
      modifies this
      ensures Valid() && Outcome(r, position) == BareValueAt(Input(), old(position))
      decreases |tokens| - position, 1
    {
      var token :- CurrentToken();
      match token.ttype {
        case LBrace => r := ParseObject();
        case LBracket => r := ParseArray();
        case String(s) =>
          Advance();
          r := Ok(MonValue(String(s), None, token.posStart, token.posEnd));
        case Number(n) =>
          Advance();
          r := Ok(MonValue(Number(n), None, token.posStart, token.posEnd));
        case True =>
          Advance();
          r := Ok(MonValue(Boolean(true), None, token.posStart, token.posEnd));
        case False =>
          Advance();
          r := Ok(MonValue(Boolean(false), None, token.posStart, token.posEnd));
        case Null =>
          Advance();
          r := Ok(MonValue(Null, None, token.posStart, token.posEnd));
        case Asterisk => r := ParseAlias();
        case Dollar => r := ParseEnumValue();
        case _ => r := ErrUnexpected("a value");
      }
    }

    method ParseObject() returns (r: Result<MonValue, ParserError>)
      requires Valid()
      modifies this
      ensures Valid() && Outcome(r, position) == ObjectAt(Input(), old(position))
      decreases |tokens| - position, 0
    {
      var startToken :- CurrentToken();
      var ok :- Expect(L.LBrace);
      var members :- ParseMembers();
      var endToken :- CurrentToken();
      ok :- Expect(L.RBrace);
      r := Ok(MonValue(Object(members), None, startToken.posStart, endToken.posEnd));
    }

    /** The member loop of `parse_object`, entered after `{`. */
    method ParseMembers() returns (r: Result<seq<Member>, ParserError>)
      requires Valid()
      modifies this
      ensures Valid() && Outcome(r, position) == MemberListAt(Input(), old(position))
      decreases |tokens| - position, 2
    {
      var members: seq<Member> := [];
      if !Check(L.RBrace) {
        var first :- ParseMember();
        members := [first];
        while true
          invariant Valid() && old(position) < position
          invariant MembersAfter(Input(), position, members) == MemberListAt(Input(), old(position))
          decreases |tokens| - position
        {
          var comma := MatchToken(L.Comma);
          if !comma || Check(L.RBrace) {
            break;
          }
          var member :- ParseMember();
          members := members + [member];
        }
      }
      r := Ok(members);
    }

    method ParseArray() returns (r: Result<MonValue, ParserError>)
      requires Valid()
      modifies this
      ensures Valid() && Outcome(r, position) == ArrayAt(Input(), old(position))
      decreases |tokens| - position, 0
    {
      var startToken :- CurrentToken();
      var ok :- Expect(L.LBracket);
      var values :- ParseElements();
      var endToken :- CurrentToken();
      ok :- Expect(L.RBracket);
      r := Ok(MonValue(Array(values), None, startToken.posStart, endToken.posEnd));
    }

    /** The element loop of `parse_array`, entered after `[`. */
    method ParseElements() returns (r: Result<seq<MonValue>, ParserError>)
      requires Valid()
      modifies this
      ensures Valid() && Outcome(r, position) == ElementsAt(Input(), old(position))
      decreases |tokens| - position, 5
    {
      var values: seq<MonValue> := [];
      if !Check(L.RBracket) {
        while true
          invariant Valid() && old(position) <= position
          invariant ElementListAt(Input(), position, values) == ElementListAt(Input(), old(position), [])
          decreases |tokens| - position
        {
          var value :- ParseElement();
          values := values + [value];
          var comma := MatchToken(L.Comma);
          if !comma || Check(L.RBracket) {
            break;
          }
        }
      }
      r := Ok(values);
    }

    /** One element of the loop in `parse_array`. */
    method ParseElement() returns (r: Result<MonValue, ParserError>)
      requires Valid()
      modifies this
      ensures Valid() && Outcome(r, position) == ElementAt(Input(), old(position))
      decreases |tokens| - position, 3
    {
      if Check(L.Spread) {
        r := ParseArraySpread();
      } else {
        r := ParseValue();
      }
    }

    /** The spread branch of the loop in `parse_array`. */
    method ParseArraySpread() returns (r: Result<MonValue, ParserError>)
      requires Valid()
      modifies this
      ensures Valid() && Outcome(r, position) == ArraySpreadAt(Input(), old(position))
    {
      var spreadStart :- CurrentToken();
      var name :- ParseSpread();
      var spreadEnd := CurrentTokenBeforeAdvance();
      if spreadEnd.Err? { assert false; }
      r := Ok(MonValue(ArraySpread(name), None, spreadStart.posStart, spreadEnd.value.posEnd));
    }

    method ParseMember() returns (r: Result<Member, ParserError>)
      requires Valid()
      modifies this
      ensures Valid() && Outcome(r, position) == MemberAt(Input(), old(position))
      decreases |tokens| - position, 1
    {
      var token :- CurrentToken();
      if token.ttype.Spread? {
        var name :- ParseSpread();
        r := Ok(SpreadMember(name));
      } else if token.ttype.Identifier? && PeekIs(L.Colon) && PeekNextIs(L.Hash) {
        var definition :- ParseTypeDefinition();
        r := Ok(TypeDefMember(definition));
      } else {
        var pair :- ParsePair();
        r := Ok(PairMember(pair));
      }
    }

    method ParsePair() returns (r: Result<Pair, ParserError>)
      requires Valid()
      modifies this
      ensures Valid() && Outcome(r, position) == PairAt(Input(), old(position))
      decreases |tokens| - position, 0
    {
      var keyFromAnchor := MatchToken(L.Ampersand);
      var key :- ParseKey();
      var validation :- ParseOptionalValidation();
      var ok :- ParseSeparator();
      var value :- ParseValue();
      if keyFromAnchor {
        value := value.(anchor := Some(key));
      }
      r := Ok(Pair(key, value, validation));
    }

    /** The separator test of `parse_pair`: `:` or else `=` must follow the key. */
    method ParseSeparator() returns (r: Result<(), ParserError>)
      requires Valid()
      modifies this
      ensures Valid() && Outcome(r, position) == SeparatorAt(Input(), old(position))
    {
      var colon := MatchToken(L.Colon);
      if !colon {
        var equals := MatchToken(L.Equals);
        if !equals {
          r := ErrUnexpected("':' or '=' after key");
          return;
        }
      }
      r := Ok(());
    }

    // -- type definitions --------------------------------------------------

    method ParseTypeDefinition() returns (r: Result<TypeDefinition, ParserError>)
      requires Valid()
      modifies this
      ensures Valid() && Outcome(r, position) == TypeDefinitionAt(Input(), old(position))
      decreases |tokens| - position, 0
    {
      var nameToken :- CurrentToken();
      var name :- ParseKey();
      var ok :- Expect(L.Colon);
      var hashToken :- CurrentToken();
      ok :- Expect(L.Hash);
      var def :- ParseTypeBody();
      r := Ok(TypeDefinition(name, Span(nameToken.posStart, nameToken.posEnd),
                             def.(posStart := hashToken.posStart), nameToken.posStart, def.posEnd));
    }

    /** The keyword dispatch of `parse_type_definition`, entered after `#`. */
    method ParseTypeBody() returns (r: Result<TypeDef, ParserError>)
      requires Valid()
      modifies this
      ensures Valid() && Outcome(r, position) == TypeBodyAt(Input(), old(position))
      decreases |tokens| - position, 0
    {
      var token :- CurrentToken();
      if token.ttype == L.Identifier("struct") {
        Advance();
        r := ParseStructDefinition();
      } else if token.ttype == L.Identifier("enum") {
        Advance();
        r := ParseEnumDefinition();
      } else {
        r := ErrUnexpected("'struct' or 'enum' keyword");
      }
    }

    method ParseStructDefinition() returns (r: Result<TypeDef, ParserError>)
      requires Valid()
      modifies this
      ensures Valid() && Outcome(r, position) == StructDefinitionAt(Input(), old(position))
      decreases |tokens| - position, 0
    {
      var startToken :- CurrentToken();
      var ok :- Expect(L.LBrace);
      var fields :- ParseFields();
      var endToken :- CurrentToken();
      ok :- Expect(L.RBrace);
      r := Ok(Struct(fields, startToken.posStart, endToken.posEnd));
    }

    /** The field loop of `parse_struct_definition`, entered after `{`. */
    method ParseFields() returns (r: Result<seq<FieldDef>, ParserError>)
      requires Valid()
      modifies this
      ensures Valid() && Outcome(r, position) == FieldsAt(Input(), old(position))
      decreases |tokens| - position, 3
    {
      var fields: seq<FieldDef> := [];
      if !Check(L.RBrace) {
        while true
          invariant Valid() && old(position) <= position
          invariant FieldListAt(Input(), position, fields) == FieldListAt(Input(), old(position), [])
          decreases |tokens| - position
        {
          var field :- ParseFieldDefinition();
          fields := fields + [field];
          var comma := MatchToken(L.Comma);
          if !comma || Check(L.RBrace) {
            break;
          }
        }
      }
      r := Ok(fields);
    }

    method ParseFieldDefinition() returns (r: Result<FieldDef, ParserError>)
      requires Valid()
      modifies this
      ensures Valid() && Outcome(r, position) == FieldDefinitionAt(Input(), old(position))
      decreases |tokens| - position, 1
    {
      var name :- ParseKey();
      r := ParseFieldType(name);
    }

    /** The part of `parse_field_definition` after the field's name. */
    method ParseFieldType(name: string) returns (r: Result<FieldDef, ParserError>)
      requires Valid()
      modifies this
      ensures Valid() && Outcome(r, position) == FieldTypeAt(Input(), old(position), name)
      decreases |tokens| - position, 0
    {
      var ok :- Expect(L.LParen);
      var typeSpec :- ParseTypeSpec();
      ok :- Expect(L.RParen);
      var equals := MatchToken(L.Equals);
      if equals {
        var value :- ParseValue();
        r := Ok(FieldDef(name, typeSpec, Some(value)));
      } else {
        r := Ok(FieldDef(name, typeSpec, None));
      }
    }

    method ParseEnumDefinition() returns (r: Result<TypeDef, ParserError>)
      requires Valid()
      modifies this
      ensures Valid() && Outcome(r, position) == EnumDefinitionAt(Input(), old(position))
    {
      var startToken :- CurrentToken();
      var ok :- Expect(L.LBrace);
      var variants :- ParseVariants();
      var endToken :- CurrentToken();
      ok :- Expect(L.RBrace);
      r := Ok(Enum(variants, startToken.posStart, endToken.posEnd));
    }

    /** The variant loop of `parse_enum_definition`, entered after `{`. */
    method ParseVariants() returns (r: Result<seq<string>, ParserError>)
      requires Valid()
      modifies this
      ensures Valid() && Outcome(r, position) == VariantsAt(Input(), old(position))
    {
      var variants: seq<string> := [];
      if !Check(L.RBrace) {
        while true
          invariant Valid() && old(position) <= position
          invariant VariantListAt(Input(), position, variants) == VariantListAt(Input(), old(position), [])
          decreases |tokens| - position
        {
          var variant :- ParseKey();
          variants := variants + [variant];
          var comma := MatchToken(L.Comma);
          if !comma || Check(L.RBrace) {
            break;
          }
        }
      }
      r := Ok(variants);
    }

    // -- imports and the document -------------------------------------------

    method ParseImportStatement() returns (r: Result<ImportStatement, ParserError>)
      requires Valid()
      modifies this
      ensures Valid() && Outcome(r, position) == ImportStatementAt(Input(), old(position))
    {
      var startToken :- CurrentToken();
      var ok :- Expect(L.Import);
      var spec :- ParseImportSpec();
      r := ParseImportSource(spec, startToken.posStart);
    }

    /** The `from path` end of `parse_import_statement`. */
    method ParseImportSource(spec: ImportSpec, posStart: nat) returns (r: Result<ImportStatement, ParserError>)
      requires Valid()
      modifies this
      ensures Valid() && Outcome(r, position) == ImportSourceAt(Input(), old(position), spec, posStart)
    {
      var ok :- Expect(L.From);
      var pathToken :- CurrentToken();
      var path :- ParseKey();
      r := Ok(ImportStatement(path, spec, posStart, pathToken.posEnd));
    }

    /** The `spec` of `parse_import_statement`: a namespace import or the named-import loop. */
    method ParseImportSpec() returns (r: Result<ImportSpec, ParserError>)
      requires Valid()
      modifies this
      ensures Valid() && Outcome(r, position) == ImportSpecAt(Input(), old(position))
    {
      var star := MatchToken(L.Asterisk);
      if star {
        var ok :- Expect(L.As);
        var name :- ParseKey();
        r := Ok(Namespace(name));
      } else {
        r := ParseNamedImport();
      }
    }

    /** The `{ ... }` branch of `parse_import_statement`. */
    method ParseNamedImport() returns (r: Result<ImportSpec, ParserError>)
      requires Valid()
      modifies this
      ensures Valid() && Outcome(r, position) == NamedImportAt(Input(), old(position))
    {
      var ok :- Expect(L.LBrace);
      var specifiers: seq<ImportSpecifier> := [];
      if !Check(L.RBrace) {
        while true
          invariant Valid() && old(position) < position
          invariant SpecifierListAt(Input(), position, specifiers) == SpecifierListAt(Input(), old(position) + 1, [])
          decreases |tokens| - position
        {
          var specifier :- ParseImportSpecifier();
          specifiers := specifiers + [specifier];
          var comma := MatchToken(L.Comma);
          if !comma || Check(L.RBrace) {
            break;
          }
        }
      }
      ok :- Expect(L.RBrace);
      r := Ok(Named(specifiers));
    }

    /** One specifier of the named-import loop. */
    method ParseImportSpecifier() returns (r: Result<ImportSpecifier, ParserError>)
      requires Valid()
      modifies this
      ensures Valid() && Outcome(r, position) == SpecifierAt(Input(), old(position))
    {
      var isAnchor := MatchToken(L.Ampersand);
      var name :- ParseKey();
      r := Ok(ImportSpecifier(name, isAnchor));
    }

    method ParseDocument() returns (r: Result<MonDocument, ParserError>)
      requires Valid()
      modifies this
      ensures Valid() && Outcome(r, position) == DocumentAt(Input(), old(position))
    {
      var imports: seq<ImportStatement> := [];
      while Check(L.Import)
        invariant Valid() && old(position) <= position
        invariant ImportsFrom(Input(), position, imports) == ImportsFrom(Input(), old(position), [])
        decreases |tokens| - position
      {
        var imp :- ParseImportStatement();
        imports := imports + [imp];
      }
      var root :- ParseObject();
      var ok :- Expect(L.Eof);
      r := Ok(MonDocument(root, imports));
    }

    /** The element loop of `parse_type_spec`, entered after `[`. */
    method ParseTypeSpecs() returns (r: Result<seq<TypeSpec>, ParserError>)
      requires Valid()
      modifies this
      ensures Valid() && Outcome(r, position) == TypeSpecsAt(Input(), old(position))
      decreases |tokens| - position, 3
    {
      var types: seq<TypeSpec> := [];
      if !Check(L.RBracket) {
        while true
          invariant Valid() && old(position) <= position
          invariant TypeSpecListAt(Input(), position, types) == TypeSpecListAt(Input(), old(position), [])
          decreases |tokens| - position
        {
          var typeSpec :- ParseTypeSpecItem();
          types := types + [typeSpec];
          var comma := MatchToken(L.Comma);
          if !comma || Check(L.RBracket) {
            break;
          }
        }
      }
      r := Ok(types);
    }

    /** The body of the element loop in `parse_type_spec`. */
    method ParseTypeSpecItem() returns (r: Result<TypeSpec, ParserError>)
      requires Valid()
      modifies this
      ensures Valid() && Outcome(r, position) == TypeSpecItemAt(Input(), old(position))
      decreases |tokens| - position, 1
    {
      r := ParseTypeSpec();
      if r.Ok? {
        var spread := MatchToken(L.Spread);
        if spread {
          var last := CurrentTokenBeforeAdvance();
          if last.Err? { assert false; }
          r := Ok(SpreadOf(r.value, Span(r.value.GetSpan().start, last.value.posEnd)));
        }
      }
    }

    method ParseOptionalValidation() returns (r: Result<Option<TypeSpec>, ParserError>)
      requires Valid()
      modifies this
      ensures Valid() && Outcome(r, position) == OptionalValidationAt(Input(), old(position))
    {
      var colons := MatchToken(L.DoubleColon);
      if colons {
        var spec :- ParseTypeSpec();
        r := Ok(Some(spec));
      } else {
        r := Ok(None);
      }
    }
  }
}

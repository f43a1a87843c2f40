/**
 * Properties of the MON grammar, stated over the parse functions of `Parser`:
 * a single trailing comma closes every list, a doubled comma is an error at
 * the second comma, and a document is read up to the one Eof token of the
 * lexed input.
 */
module ParserProperties {
  import opened Common
  import opened Ast
  import opened Errors
  import L = Lexer
  import opened Parser

  /** The error every key-reading rule reports at a token that cannot start a key. */
  const KeyExpected := "an identifier or string for a key"

  // ---------------------------------------------------------------------
  // Trailing commas
  // ---------------------------------------------------------------------

  /** `[ v , ]`: an array with one element and a trailing comma. */
  lemma TrailingCommaInArray(st: Stream, p: nat)
    requires p < |st.tokens| && CheckAt(st, p, L.LBracket) && ElementAt(st, p + 1).Ok?
    requires var q := ElementAt(st, p + 1).value.next;
             CheckAt(st, q, L.Comma) && CheckAt(st, q + 1, L.RBracket)
    ensures var item := ElementAt(st, p + 1).value;
            && ArrayAt(st, p).Ok?
            && ArrayAt(st, p).value.value.kind == Array([item.value])
            && ArrayAt(st, p).value.next == item.next + 2
  {
    var item := ElementAt(st, p + 1).value;
    ElementFailsAtClose(st, p + 1);
    assert [] + [item.value] == [item.value];
    assert ElementsAt(st, p + 1) == Ok(Parsed([item.value], item.next + 1));
  }

  /**
   * `{ m , }`: after the `{`, one member and a trailing comma make the member
   * list, and the cursor is left on the `}` that closes the object.
   */
  lemma TrailingCommaInObject(st: Stream, p: nat)
    requires p <= |st.tokens| && MemberAt(st, p).Ok?
    requires var q := MemberAt(st, p).value.next;
             CheckAt(st, q, L.Comma) && CheckAt(st, q + 1, L.RBrace)
    ensures var m := MemberAt(st, p).value;
            MemberListAt(st, p) == Ok(Parsed([m.value], m.next + 1))
  {
    MemberFailsAtClose(st, p);
    ObjectOfOneMember(st, p, MemberAt(st, p).value);
  }

  /** The member list when the member at `p` is followed by a comma and `}`. */
  lemma ObjectOfOneMember(st: Stream, p: nat, m: Parsed<Member>)
    requires p <= |st.tokens| && !CheckAt(st, p, L.RBrace) && MemberAt(st, p) == Ok(m)
    requires CheckAt(st, m.next, L.Comma) && CheckAt(st, m.next + 1, L.RBrace)
    ensures MemberListAt(st, p) == Ok(Parsed([m.value], m.next + 1))
  {
    CommaBeforeBrace(st, m.next, [m.value]);
  }

  /** `{ f , }` in a struct definition: one field and a trailing comma make the field list. */
  lemma TrailingCommaInStruct(st: Stream, p: nat)
    requires p < |st.tokens| && CheckAt(st, p, L.LBrace) && FieldDefinitionAt(st, p + 1).Ok?
    requires var q := FieldDefinitionAt(st, p + 1).value.next;
             CheckAt(st, q, L.Comma) && CheckAt(st, q + 1, L.RBrace)
    ensures var f := FieldDefinitionAt(st, p + 1).value;
            && StructDefinitionAt(st, p).Ok?
            && StructDefinitionAt(st, p).value.value.fields == [f.value]
            && StructDefinitionAt(st, p).value.next == f.next + 2
  {
    var f := FieldDefinitionAt(st, p + 1).value;
    KeyFailsAtClose(st, p + 1);
    assert !CheckAt(st, p + 1, L.RBrace);
    assert [] + [f.value] == [f.value];
    assert FieldListAt(st, p + 1, []) == Ok(Parsed([f.value], f.next + 1));
    assert FieldsAt(st, p + 1) == Ok(Parsed([f.value], f.next + 1));
    assert ExpectAt(st, f.next + 1, L.RBrace) == Ok(Parsed((), f.next + 2));
  }

  /** `{ V , }` in an enum definition: one variant and a trailing comma make the variant list. */
  lemma TrailingCommaInEnum(st: Stream, p: nat)
    requires p < |st.tokens| && CheckAt(st, p, L.LBrace) && KeyAt(st, p + 1).Ok?
    requires var q := KeyAt(st, p + 1).value.next;
             CheckAt(st, q, L.Comma) && CheckAt(st, q + 1, L.RBrace)
    ensures var v := KeyAt(st, p + 1).value;
            && EnumDefinitionAt(st, p).Ok?
            && EnumDefinitionAt(st, p).value.value.variants == [v.value]
            && EnumDefinitionAt(st, p).value.next == v.next + 2
  {
    var v := KeyAt(st, p + 1).value;
    KeyFailsAtClose(st, p + 1);
    assert [] + [v.value] == [v.value];
    assert VariantsAt(st, p + 1) == Ok(Parsed([v.value], v.next + 1));
  }

  /** `{ s , }` in a named import: one specifier and a trailing comma make the specifier list. */
  lemma TrailingCommaInImport(st: Stream, p: nat)
    requires p < |st.tokens| && CheckAt(st, p, L.LBrace) && SpecifierAt(st, p + 1).Ok?
    requires var q := SpecifierAt(st, p + 1).value.next;
             CheckAt(st, q, L.Comma) && CheckAt(st, q + 1, L.RBrace)
    ensures var sp := SpecifierAt(st, p + 1).value;
            NamedImportAt(st, p) == Ok(Parsed(Named([sp.value]), sp.next + 2))
  {
    var sp := SpecifierAt(st, p + 1).value;
    SpecifierFailsAtClose(st, p + 1);
    assert !CheckAt(st, p + 1, L.RBrace);
    assert [] + [sp.value] == [sp.value];
    var specifiers := SpecifierListAt(st, p + 1, []);
    assert specifiers == Ok(Parsed([sp.value], sp.next + 1));
    assert ExpectAt(st, sp.next + 1, L.RBrace) == Ok(Parsed((), sp.next + 2));
  }

  /**
   * In an element list of any length, an element followed by `, ]` is the
   * last one: the loop returns the elements read so far and this one, and
   * stops on the `]`.
   */
  lemma CommaBeforeBracket(st: Stream, p: nat, acc: seq<MonValue>)
    requires p <= |st.tokens| && ElementAt(st, p).Ok?
    requires var q := ElementAt(st, p).value.next;
             CheckAt(st, q, L.Comma) && CheckAt(st, q + 1, L.RBracket)
    ensures var item := ElementAt(st, p).value;
            ElementListAt(st, p, acc) == Ok(Parsed(acc + [item.value], item.next + 1))
  {
  }

  /** The same for the field list of a struct, closed by `, }`. */
  lemma CommaBeforeBraceInFields(st: Stream, p: nat, acc: seq<FieldDef>)
    requires p <= |st.tokens| && FieldDefinitionAt(st, p).Ok?
    requires var q := FieldDefinitionAt(st, p).value.next;
             CheckAt(st, q, L.Comma) && CheckAt(st, q + 1, L.RBrace)
    ensures var f := FieldDefinitionAt(st, p).value;
            FieldListAt(st, p, acc) == Ok(Parsed(acc + [f.value], f.next + 1))
  {
  }

  /** The same for the variant list of an enum, closed by `, }`. */
  lemma CommaBeforeBraceInVariants(st: Stream, p: nat, acc: seq<string>)
    requires p <= |st.tokens| && KeyAt(st, p).Ok?
    requires var q := KeyAt(st, p).value.next;
             CheckAt(st, q, L.Comma) && CheckAt(st, q + 1, L.RBrace)
    ensures var v := KeyAt(st, p).value;
            VariantListAt(st, p, acc) == Ok(Parsed(acc + [v.value], v.next + 1))
  {
  }

  /** The same for the specifier list of a named import, closed by `, }`. */
  lemma CommaBeforeBraceInSpecifiers(st: Stream, p: nat, acc: seq<ImportSpecifier>)
    requires p <= |st.tokens| && SpecifierAt(st, p).Ok?
    requires var q := SpecifierAt(st, p).value.next;
             CheckAt(st, q, L.Comma) && CheckAt(st, q + 1, L.RBrace)
    ensures var sp := SpecifierAt(st, p).value;
            SpecifierListAt(st, p, acc) == Ok(Parsed(acc + [sp.value], sp.next + 1))
  {
  }

  /** No specifier starts at `}`: it is an optional `&` and a key. */
  lemma SpecifierFailsAtClose(st: Stream, p: nat)
    requires p <= |st.tokens|
    ensures CheckAt(st, p, L.RBrace) ==> SpecifierAt(st, p).Err?
  {
    KeyFailsAtClose(st, p);
  }

  /** No key starts at `}`, so a field, variant or specifier that parses is not followed by the close at once. */
  lemma KeyFailsAtClose(st: Stream, p: nat)
    requires p <= |st.tokens|
    ensures CheckAt(st, p, L.RBrace) ==> KeyAt(st, p).Err? && FieldDefinitionAt(st, p).Err?
  {
  }

  /** The object loop stops at a comma followed by `}`, leaving the cursor on the `}`. */
  lemma CommaBeforeBrace(st: Stream, q: nat, acc: seq<Member>)
    requires CheckAt(st, q, L.Comma) && CheckAt(st, q + 1, L.RBrace)
    ensures MembersAfter(st, q, acc) == Ok(Parsed(acc, q + 1))
  {
  }

  /** No value starts at `]`, so the element loop is entered whenever an element parses. */
  lemma ElementFailsAtClose(st: Stream, p: nat)
    requires p <= |st.tokens|
    ensures CheckAt(st, p, L.RBracket) ==> ElementAt(st, p).Err?
  {
    if CheckAt(st, p, L.RBracket) {
      assert BareValueAt(st, p).Err?;
    }
  }

  /** No member starts at `}`: a spread starts at `...`, a pair or type definition at a key. */
  lemma MemberFailsAtClose(st: Stream, p: nat)
    requires p <= |st.tokens|
    ensures CheckAt(st, p, L.RBrace) ==> MemberAt(st, p).Err?
  {
    if CheckAt(st, p, L.RBrace) {
      assert KeyAt(st, p).Err?;
      assert PairAt(st, p).Err?;
    }
  }

  // ---------------------------------------------------------------------
  // Doubled commas
  // ---------------------------------------------------------------------

  /** `, ,` in an object: the second comma is reported where a key was expected. */
  lemma DoubledCommaInObject(st: Stream, p: nat, acc: seq<Member>)
    requires p + 1 < |st.tokens| && CheckAt(st, p, L.Comma) && CheckAt(st, p + 1, L.Comma)
    ensures MembersAfter(st, p, acc) == Err(UnexpectedErrorAt(st, p + 1, KeyExpected))
  {
    assert KeyAt(st, p + 1) == Err(UnexpectedErrorAt(st, p + 1, KeyExpected));
    assert PairAt(st, p + 1) == Err(UnexpectedErrorAt(st, p + 1, KeyExpected));
  }

  /** `, ,` after an array element: the second comma is reported where a value was expected. */
  lemma DoubledCommaInArray(st: Stream, p: nat, acc: seq<MonValue>)
    requires p <= |st.tokens| && ElementAt(st, p).Ok?
    requires var q := ElementAt(st, p).value.next;
             CheckAt(st, q, L.Comma) && CheckAt(st, q + 1, L.Comma)
    ensures ElementListAt(st, p, acc) == Err(UnexpectedErrorAt(st, ElementAt(st, p).value.next + 1, "a value"))
  {
    var item := ElementAt(st, p).value;
    ElementFailsAtComma(st, item.next + 1);
  }

  /** An element cannot start at a comma: the value rule reports "a value" there. */
  lemma ElementFailsAtComma(st: Stream, p: nat)
    requires p <= |st.tokens| && CheckAt(st, p, L.Comma)
    ensures ElementAt(st, p) == Err(UnexpectedErrorAt(st, p, "a value"))
  {
    assert BareValueAt(st, p) == Err(UnexpectedErrorAt(st, p, "a value"));
  }

  /** `, ,` after a struct field: the second comma is reported where a field name was expected. */
  lemma DoubledCommaInStruct(st: Stream, p: nat, acc: seq<FieldDef>)
    requires p <= |st.tokens| && FieldDefinitionAt(st, p).Ok?
    requires var q := FieldDefinitionAt(st, p).value.next;
             CheckAt(st, q, L.Comma) && CheckAt(st, q + 1, L.Comma)
    ensures FieldListAt(st, p, acc) == Err(UnexpectedErrorAt(st, FieldDefinitionAt(st, p).value.next + 1, KeyExpected))
  {
    var q := FieldDefinitionAt(st, p).value.next;
    KeyFailsAtComma(st, q + 1);
  }

  /** `, ,` after an enum variant: the second comma is reported where a variant name was expected. */
  lemma DoubledCommaInEnum(st: Stream, p: nat, acc: seq<string>)
    requires p <= |st.tokens| && KeyAt(st, p).Ok?
    requires var q := KeyAt(st, p).value.next;
             CheckAt(st, q, L.Comma) && CheckAt(st, q + 1, L.Comma)
    ensures VariantListAt(st, p, acc) == Err(UnexpectedErrorAt(st, KeyAt(st, p).value.next + 1, KeyExpected))
  {
    var q := KeyAt(st, p).value.next;
    KeyFailsAtComma(st, q + 1);
  }

  /** `, ,` after an import specifier: the second comma is reported where a name was expected. */
  lemma DoubledCommaInImport(st: Stream, p: nat, acc: seq<ImportSpecifier>)
    requires p <= |st.tokens| && SpecifierAt(st, p).Ok?
    requires var q := SpecifierAt(st, p).value.next;
             CheckAt(st, q, L.Comma) && CheckAt(st, q + 1, L.Comma)
    ensures SpecifierListAt(st, p, acc) == Err(UnexpectedErrorAt(st, SpecifierAt(st, p).value.next + 1, KeyExpected))
  {
    var q := SpecifierAt(st, p).value.next;
    KeyFailsAtComma(st, q + 1);
    assert SpecifierAt(st, q + 1) == Err(UnexpectedErrorAt(st, q + 1, KeyExpected));
  }

  /** A key cannot start at a comma: the key rule reports it where a key was expected. */
  lemma KeyFailsAtComma(st: Stream, p: nat)
    requires p < |st.tokens| && CheckAt(st, p, L.Comma)
    ensures KeyAt(st, p) == Err(UnexpectedErrorAt(st, p, KeyExpected))
    ensures FieldDefinitionAt(st, p) == Err(UnexpectedErrorAt(st, p, KeyExpected))
  {
  }

  // ---------------------------------------------------------------------
  // The token stream and the end of a document
  // ---------------------------------------------------------------------

  /** The stream holds exactly one Eof, as its last token. */
  predicate EndsWithOnlyEof(ts: seq<L.Token>)
  {
    |ts| >= 1 && ts[|ts| - 1].ttype.Eof? && forall k :: 0 <= k < |ts| - 1 ==> !ts[k].ttype.Eof?
  }

  /** The lexer's output ends with its only Eof, and removing whitespace and comments keeps that so. */
  lemma {:induction false} SignificantLexEndsWithOnlyEof(s: string)
    ensures EndsWithOnlyEof(L.Lex(s))
    ensures EndsWithOnlyEof(Significant(L.Lex(s)))
  {
    L.LexTiling(s, 0);
    var ts := L.Lex(s);
    var prefix := ts[..|ts| - 1];
    assert ts == prefix + [ts[|ts| - 1]];
    var r := Significant(ts);
    assert r == Significant(prefix) + [ts[|ts| - 1]];
    forall k | 0 <= k < |r| - 1
      ensures !r[k].ttype.Eof?
    {
      assert r[k] in Significant(prefix);
      assert r[k] in prefix;
    }
  }

  /**
   * On a stream whose only Eof is its last token, a document that parses from
   * the start consumes every token: nothing may follow the root object.
   */
  lemma DocumentConsumesAll(st: Stream)
    requires EndsWithOnlyEof(st.tokens)
    ensures DocumentAt(st, 0).Ok? ==> DocumentAt(st, 0).value.next == |st.tokens|
  {
  }

  /**
   * Anything but Eof right after the root object is reported as an
   * UnexpectedToken that expected Eof.
   */
  lemma TokenAfterRootRejected(st: Stream)
    requires ImportsFrom(st, 0, []).Ok? && ObjectAt(st, ImportsFrom(st, 0, []).value.next).Ok?
    requires var n := ObjectAt(st, ImportsFrom(st, 0, []).value.next).value.next;
             n < |st.tokens| && !st.tokens[n].ttype.Eof?
    ensures var n := ObjectAt(st, ImportsFrom(st, 0, []).value.next).value.next;
            DocumentAt(st, 0) == Err(UnexpectedToken(Span(st.tokens[n].posStart, st.tokens[n].posEnd), "Eof"))
  {
  }
}

# MON front end in Dafny

A Dafny model of the front end of MON, a configuration language with
objects, arrays, anchors (`&name`), aliases (`*name`), object and array
spreads (`...*name`), imports, struct and enum type definitions and `:: T`
validation annotations. It covers:

- the lexer (`lexer.dfy`): the scanner as a class over a character index and
  a byte offset, each method proved against pure functions that say what one
  token and a whole token stream are;
- the parser (`parser.dfy`, `parser_properties.dfy`): recursive descent over
  the significant tokens, as a class with a forward-only cursor, each method
  proved against a parse function of the same rule; grammar properties
  (trailing commas, doubled commas, the end of a document) are lemmas over
  those functions;
- the resolver (`resolver.dfy`, `resolve_values.dfy`, `validation.dfy`): the
  import walk with its cycle guard and memo of resolved files, the
  collection of anchors and type definitions, alias and spread expansion
  with its key merge, and the validation of values against type annotations,
  structs, enums and collection shapes;
- the conversion of a resolved value to plain data (`serialization.dfy`);
- the editor queries (`lsp.dfy`, `api.dfy`): the node under a cursor, every
  usage of a name, go-to-definition, hover text, find-references, semantic
  tokens and the printed form of a type annotation;
- line and column of a position (`utils.dfy`).

Shared pieces are `common.dfy` (Option, Result, trimming and joining),
`ast.dfy` (the syntax tree) and `errors.dfy` (the error variants).

## Model

| member | source | states |
|---|---|---|
| Lexer.Utf8CharLen | src/lexer.rs:295-301 | consuming one character moves the byte position by its UTF-8 size, 1 to 4 bytes |
| Lexer.Utf8Length | src/lexer.rs:295-301 | a text's byte length lies between its character count and four times that count |
| Lexer.ByteOffset | src/lexer.rs:295-301 | the byte position after `i` characters lies between `i` and `4i` |
| Lexer.ByteOffsetIsPrefixLength | src/lexer.rs:295-301 | the byte position after `i` characters is the UTF-8 length of those characters |
| Lexer.ByteOffsetGrows | src/lexer.rs:295-301 | each character consumed adds at least one byte to the position |
| Lexer.WhitespaceEnd | src/lexer.rs:307-316 | the whitespace loop stops at the end of the input or at the first non-whitespace character |
| Lexer.WhitespaceRun | src/lexer.rs:307-316 | every character the whitespace loop takes is whitespace |
| Lexer.LineEnd | src/lexer.rs:318-328 | the comment loop stops at the first newline or at the end of the input |
| Lexer.LineRun | src/lexer.rs:318-328 | the comment loop takes no newline |
| Lexer.IdentEnd | src/lexer.rs:362-372 | the identifier loop stops at the end or at the first character that is not alphanumeric or `_` |
| Lexer.IdentRun | src/lexer.rs:362-372 | every character the identifier loop takes is ASCII alphanumeric or `_` |
| Lexer.TrimStart | src/lexer.rs:327 | trimming the front never lengthens the text |
| Lexer.TrimEnd | src/lexer.rs:327 | trimming the back never lengthens the text |
| Lexer.TrimStartShape | src/lexer.rs:327 | `trim_start` drops a whitespace prefix and keeps a suffix that starts with no whitespace |
| Lexer.TrimEndShape | src/lexer.rs:327 | `trim_end` drops a whitespace suffix and keeps a prefix that ends with no whitespace |
| Lexer.TrimShape | src/lexer.rs:327 | the trimmed comment text is a contiguous part of the line, with only whitespace dropped around it, and it neither starts nor ends with whitespace |
| Lexer.ScanString | src/lexer.rs:330-360 | a string literal is either a String token ending past its closing quote, or Unknown and running to the end of the input |
| Lexer.Escape | src/lexer.rs:338-352 | escaping a text at most doubles its length (the partner of the decoding loop) |
| Lexer.EscapeRoundTrip | src/lexer.rs:330-360 | decoding an escaped text up to its closing quote gives back the text and ends just past the quote |
| Lexer.UnclosedString | src/lexer.rs:350-357 | a literal whose closing quote never comes is Unknown and runs to the end of the input |
| Lexer.NumberEnd | src/lexer.rs:391-409 | the number loop never moves backwards and stays inside the input |
| Lexer.NumberEndAtExponent | src/lexer.rs:397-407 | at the first `e`/`E` the lexeme goes on past it and past one `+`/`-` right after it |
| Lexer.NumberEndShape | src/lexer.rs:391-409 | the number loop takes at most one `.` and one `e`/`E`, and a sign only right after the `e`/`E` |
| Lexer.NumberEndShapeAtExponent | src/lexer.rs:397-407 | after the exponent marker and its optional sign no further `e`/`E` is taken |
| Lexer.ScanNumber | src/lexer.rs:385-416 | a number is a Number token carrying exactly its lexeme when that lexeme parses as a float, Unknown otherwise, and consumes at least one character |
| Lexer.Keyword | src/lexer.rs:374-382 | a word that is not a keyword becomes an Identifier carrying the word itself |
| Lexer.KeywordTable | src/lexer.rs:374-382 | exactly the eight reserved spellings are not identifiers; `true`/`on` and `false`/`off` share their tokens |
| Lexer.ScanMultiChar | src/lexer.rs:249-286 | every arm that looks ahead or reads on consumes at least one character and never yields Eof |
| Lexer.ScanPunctuation | src/lexer.rs:249-276 | the `:`, `.` and `/` arms consume at least one character and never yield Eof |
| Lexer.ScanLexeme | src/lexer.rs:277-286 | the string, whitespace, identifier and number arms consume at least one character and never yield Eof |
| Lexer.ScanToken | src/lexer.rs:231-291 | the next token is Eof exactly at the end of the input and is empty there; any other token consumes at least one character |
| Lexer.LexFrom | src/lexer.rs:214-226 | the token stream starts with the token `next_token` returns at the current position |
| Lexer.LexFromStep | src/lexer.rs:214-226 | after a token that is not Eof, lexing goes on where that token ends |
| Lexer.LexTiling | src/lexer.rs:214-226 | the tokens tile the input: each starts where the previous ends, all but the last are non-empty and not Eof, and the last is the only Eof, empty, at the input's byte length |
| Lexer.ColonAndDotLookahead | src/lexer.rs:249-269 | `::` is one DoubleColon and a lone `:` a Colon; `...` is a Spread, `..` a two-byte Unknown, a lone `.` a Dot |
| Lexer.CommentToken | src/lexer.rs:270-276 | `//` starts a comment running up to, not including, the next newline, and its text is that run trimmed; a lone `/` is a one-character Unknown |
| Lexer.IdentifierToken | src/lexer.rs:279 | an identifier is the longest run of identifier characters, mapped through the keyword table |
| Lexer.NumberToken | src/lexer.rs:280-285 | a number starts at a digit or at `-` before a digit; it is a Number exactly when its lexeme is a valid float literal; a `-` with no digit after it is a one-character Unknown |
| Lexer.LeadingDotExample | src/lexer.rs:750-757 | `.5` lexes as a Dot, the Number `5`, then Eof |
| Lexer.DigitAfterDot | src/lexer.rs:750-757 | the `5` of `.5` scans as the Number `5` |
| Lexer.OperatorsExample | src/lexer.rs:482-486 | `:: ...` lexes as DoubleColon, Whitespace, Spread, Eof |
| Lexer.Lexer.constructor | src/lexer.rs:204-209 | a new lexer starts at character 0 and byte 0 |
| Lexer.Lexer.Peek | src/lexer.rs:303-305 | peeking returns the next character, or nothing at the end, and consumes nothing |
| Lexer.Lexer.Advance | src/lexer.rs:295-301 | advancing consumes one character, if any is left, and moves the byte position by its UTF-8 size |
| Lexer.Lexer.ReadWhitespace | src/lexer.rs:307-316 | the whitespace loop stops where `WhitespaceEnd` says |
| Lexer.Lexer.ReadComment | src/lexer.rs:318-328 | the comment reader stops before the newline and returns the trimmed text it consumed |
| Lexer.Lexer.ReadString | src/lexer.rs:330-360 | the string loop returns the token `ScanString` specifies and stops where it says |
| Lexer.Lexer.ReadIdentifier | src/lexer.rs:362-383 | the identifier loop stops where `IdentEnd` says and returns the keyword-table token of the word |
| Lexer.Lexer.ReadNumber | src/lexer.rs:385-417 | the number loop stops where `NumberEnd` says; the result is a Number carrying the lexeme exactly when the lexeme is a valid float literal |
| Lexer.Lexer.ReadNumberText | src/lexer.rs:385-409 | the number loop stops where `NumberEnd` says and has collected exactly the characters from the first one up to there |
| Lexer.Lexer.ReadNumberStep | src/lexer.rs:391-409 | one round of the number loop consumes exactly what `NumberEnd` takes next, or nothing when the number has ended |
| Lexer.Lexer.ReadExponentSign | src/lexer.rs:400-405 | the optional sign after `e`/`E` is consumed exactly when it is `+` or `-` |
| Lexer.Lexer.ScanRest | src/lexer.rs:249-286 | the arms of `next_token` after a character that is not a one-character token agree with `ScanMultiChar` |
| Lexer.Lexer.ScanPunctuationRest | src/lexer.rs:249-276 | the `:`, `.` and `/` arms agree with `ScanPunctuation` |
| Lexer.Lexer.ScanLexemeRest | src/lexer.rs:277-286 | the reading arms agree with `ScanLexeme` |
| Lexer.Lexer.NextToken | src/lexer.rs:231-292 | `next_token` returns the token `TokenAt` specifies, spanning the byte positions before and after it; at the end it returns an empty Eof token at the input's byte length |
| Lexer.Lexer.Lex | src/lexer.rs:214-226 | `lex` returns the stream `LexFrom` specifies and stops at the end of the input |
| Parser.CurrentAt | src/parser.rs:705-714 | the token under the cursor exists exactly when the cursor is inside the stream; past the end the error is UnexpectedEof at the last byte of the source |
| Parser.AdvanceFrom | src/parser.rs:729-733 | advancing moves the cursor one token forward, and never past the end |
| Parser.ExpectAt | src/parser.rs:736-744 | `expect` succeeds exactly when the token under the cursor has the given kind, payload ignored, and then consumes that one token |
| Parser.KeyAt | src/parser.rs:377-401 | a key consumes at least one token and is never followed by a Dot |
| Parser.KeyText | src/parser.rs:377-401 | a key is an identifier or string followed by Dot-Identifier pairs, and its text is those names joined with `.`; any other first token is reported as not a key |
| Parser.KeyPartsAfter | src/parser.rs:390-399 | the dotted-key loop stops only in front of a token that is not a Dot |
| Parser.KeyPartsText | src/parser.rs:390-401 | the dotted loop reads Dot-Identifier pairs and its result is all the parts read, joined with `.` |
| Parser.OptionalAnchorAt | src/parser.rs:404-417 | an anchor is read exactly when `&` is under the cursor, and then takes two tokens; otherwise nothing is consumed |
| Parser.AliasAt | src/parser.rs:420-438 | an alias is an Alias value with no anchor that spans from the `*` to the last token of its key |
| Parser.SpreadAt | src/parser.rs:441-450 | a spread consumes the `...` and at least one token of the alias |
| Parser.EnumValueAt | src/parser.rs:666-702 | an enum value takes exactly four tokens and spans from the `$` to the variant name |
| Parser.TypeSpecAt | src/parser.rs:616-663 | a type spec spans from its first token to the last one consumed; it is a collection exactly when it starts with `[`, and never a spread at the top |
| Parser.TypeSpecsAt | src/parser.rs:621-642 | the collection type's element loop never moves the cursor back |
| Parser.TypeSpecItemAt | src/parser.rs:624-634 | one element type consumes at least one token |
| Parser.TypeSpecItemSpread | src/parser.rs:624-634 | one element type parses exactly when its type spec does; it is a spread exactly when `...` follows that type spec, wrapping it and consuming the `...`, and otherwise is that type spec |
| Parser.TypeSpecListAt | src/parser.rs:622-641 | each round of the element loop adds an element and consumes tokens |
| Parser.OptionalValidationAt | src/parser.rs:607-613 | a validation is read only after `::`, and the cursor never moves back |
| Parser.ValueAt | src/parser.rs:259-320 | a value spans from its first token after the optional anchor to the last one consumed, and carries the anchor read before it |
| Parser.BareValueAt | src/parser.rs:263-315 | the value chosen by its first token spans from that token to the last one consumed |
| Parser.ObjectAt | src/parser.rs:191-215 | an object is an Object value with no anchor that spans from its `{` to its `}` |
| Parser.MemberListAt | src/parser.rs:195-206 | the member list never moves the cursor back |
| Parser.MembersAfter | src/parser.rs:199-205 | the object loop keeps the members already read, in order, and never moves the cursor back |
| Parser.ArrayAt | src/parser.rs:219-255 | an array is an Array value with no anchor that spans from its `[` to its `]` |
| Parser.ArraySpreadAt | src/parser.rs:225-234 | an array spread element is an ArraySpread value and consumes tokens |
| Parser.ElementsAt | src/parser.rs:223-246 | the element list never moves the cursor back |
| Parser.ElementListAt | src/parser.rs:224-245 | each round of the array loop consumes tokens |
| Parser.ElementAt | src/parser.rs:225-237 | an element consumes tokens, and is a spread whenever it starts at `...` |
| Parser.MemberAt | src/parser.rs:323-336 | a member is a spread exactly when it starts at `...`, and a type definition exactly when an Identifier is followed by `:` and `#` |
| Parser.PairAt | src/parser.rs:340-373 | a pair consumes tokens; when its key is written `&key`, the value's anchor is the key |
| Parser.SeparatorAt | src/parser.rs:355-357 | the separator test succeeds exactly at `:` or `=`, and consumes that one token |
| Parser.TypeBodyAt | src/parser.rs:504-521 | after `#` the `struct` keyword, and only it, yields a Struct; the dispatch consumes tokens |
| Parser.TypeDefinitionAt | src/parser.rs:497-533 | a type definition consumes tokens |
| Parser.StructDefinitionAt | src/parser.rs:537-558 | a struct body is a Struct and consumes tokens |
| Parser.FieldsAt | src/parser.rs:541-551 | the field list never moves the cursor back |
| Parser.FieldListAt | src/parser.rs:542-550 | each round of the struct loop consumes tokens |
| Parser.FieldDefinitionAt | src/parser.rs:562-579 | a field definition consumes tokens |
| Parser.FieldTypeAt | src/parser.rs:563-578 | the rest of a field definition keeps the field's name |
| Parser.DefaultValueAt | src/parser.rs:568-572 | a field has a default exactly when `=` follows its type |
| Parser.VariantsAt | src/parser.rs:585-596 | the variant list never moves the cursor back |
| Parser.EnumDefinitionAt | src/parser.rs:582-603 | an enum body is an Enum and consumes tokens |
| Parser.VariantListAt | src/parser.rs:587-595 | each round of the enum loop consumes tokens |
| Parser.SpecifierAt | src/parser.rs:468-471 | an import specifier is an anchor import exactly when it starts with `&` |
| Parser.SpecifierListAt | src/parser.rs:466-478 | each round of the named-import loop consumes tokens |
| Parser.ImportSpecAt | src/parser.rs:457-481 | an import is a namespace import exactly when `*` follows `import` |
| Parser.NamedImportAt | src/parser.rs:463-481 | the `{ ... }` form gives a named import |
| Parser.ImportStatementAt | src/parser.rs:453-494 | an import statement consumes tokens |
| Parser.ImportsFrom | src/parser.rs:175-179 | the import loop stops only in front of a token that is not `import` |
| Parser.DocumentAt | src/parser.rs:172-187 | a document's root is an Object and the last token consumed is the Eof |
| Parser.Significant | src/parser.rs:145-152 | the parser keeps exactly the tokens that are neither Whitespace nor Comment |
| Parser.Parser.constructor | src/parser.rs:145-159 | a new parser holds the significant tokens of the lexed source, with the cursor at 0 |
| Parser.Parser.CurrentToken | src/parser.rs:705-714 | `current_token` returns what `CurrentAt` specifies |
| Parser.Parser.CurrentTokenBeforeAdvance | src/parser.rs:716-727 | `current_token_before_advance` returns the token before the cursor, or UnexpectedEof |
| Parser.Parser.Advance | src/parser.rs:729-733 | `advance` moves the cursor as `AdvanceFrom` specifies |
| Parser.Parser.MatchToken | src/parser.rs:746-753 | `match_token` consumes one token exactly when it has the given kind |
| Parser.Parser.Expect | src/parser.rs:736-744 | `expect` returns and moves as `ExpectAt` specifies |
| Parser.Parser.ErrUnexpected | src/parser.rs:780-790 | `err_unexpected` reports UnexpectedToken at the current token, or UnexpectedEof past the end |
| Parser.Parser.ParseKey | src/parser.rs:377-401 | `parse_key` returns and moves as `KeyAt` specifies |
| Parser.Parser.ParseOptionalAnchor | src/parser.rs:404-417 | `parse_optional_anchor` returns and moves as `OptionalAnchorAt` specifies |
| Parser.Parser.ParseAlias | src/parser.rs:420-438 | `parse_alias` returns and moves as `AliasAt` specifies |
| Parser.Parser.ParseSpread | src/parser.rs:441-450 | `parse_spread` returns and moves as `SpreadAt` specifies |
| Parser.Parser.ParseEnumValue | src/parser.rs:666-702 | `parse_enum_value` returns and moves as `EnumValueAt` specifies |
| Parser.Parser.ParseTypeSpec | src/parser.rs:616-663 | `parse_type_spec` returns and moves as `TypeSpecAt` specifies |
| Parser.Parser.ParseTypeSpecs | src/parser.rs:621-642 | the element loop of `parse_type_spec` returns and moves as `TypeSpecsAt` specifies |
| Parser.Parser.ParseTypeSpecItem | src/parser.rs:624-634 | one round of that loop returns and moves as `TypeSpecItemAt` specifies |
| Parser.Parser.ParseOptionalValidation | src/parser.rs:607-613 | `parse_optional_validation` returns and moves as `OptionalValidationAt` specifies |
| Parser.Parser.ParseValue | src/parser.rs:259-320 | `parse_value` returns and moves as `ValueAt` specifies |
| Parser.Parser.ParseBareValue | src/parser.rs:263-315 | the `match` of `parse_value` returns and moves as `BareValueAt` specifies |
| Parser.Parser.ParseObject | src/parser.rs:191-215 | `parse_object` returns and moves as `ObjectAt` specifies |
| Parser.Parser.ParseMembers | src/parser.rs:195-206 | the member loop of `parse_object` returns and moves as `MemberListAt` specifies |
| Parser.Parser.ParseArray | src/parser.rs:219-255 | `parse_array` returns and moves as `ArrayAt` specifies |
| Parser.Parser.ParseElements | src/parser.rs:223-246 | the loop of `parse_array` returns and moves as `ElementsAt` specifies |
| Parser.Parser.ParseElement | src/parser.rs:225-237 | one element returns and moves as `ElementAt` specifies |
| Parser.Parser.ParseArraySpread | src/parser.rs:225-234 | the spread branch returns and moves as `ArraySpreadAt` specifies |
| Parser.Parser.ParseMember | src/parser.rs:323-336 | `parse_member` returns and moves as `MemberAt` specifies |
| Parser.Parser.ParsePair | src/parser.rs:340-373 | `parse_pair` returns and moves as `PairAt` specifies |
| Parser.Parser.ParseSeparator | src/parser.rs:355-357 | the separator test returns and moves as `SeparatorAt` specifies |
| Parser.Parser.ParseTypeBody | src/parser.rs:504-521 | the keyword dispatch returns and moves as `TypeBodyAt` specifies |
| Parser.Parser.ParseTypeDefinition | src/parser.rs:497-533 | `parse_type_definition` returns and moves as `TypeDefinitionAt` specifies |
| Parser.Parser.ParseStructDefinition | src/parser.rs:537-558 | `parse_struct_definition` returns and moves as `StructDefinitionAt` specifies |
| Parser.Parser.ParseFields | src/parser.rs:541-551 | its field loop returns and moves as `FieldsAt` specifies |
| Parser.Parser.ParseFieldDefinition | src/parser.rs:562-579 | `parse_field_definition` returns and moves as `FieldDefinitionAt` specifies |
| Parser.Parser.ParseFieldType | src/parser.rs:563-578 | the rest of a field definition returns and moves as `FieldTypeAt` specifies |
| Parser.Parser.ParseVariants | src/parser.rs:585-596 | its variant loop returns and moves as `VariantsAt` specifies |
| Parser.Parser.ParseEnumDefinition | src/parser.rs:582-603 | `parse_enum_definition` returns and moves as `EnumDefinitionAt` specifies |
| Parser.Parser.ParseImportStatement | src/parser.rs:453-494 | `parse_import_statement` returns and moves as `ImportStatementAt` specifies |
| Parser.Parser.ParseImportSource | src/parser.rs:484-493 | the `from path` end of an import statement returns and moves as `ImportSourceAt` specifies |
| Parser.Parser.ParseImportSpec | src/parser.rs:457-481 | the import form returns and moves as `ImportSpecAt` specifies |
| Parser.Parser.ParseNamedImport | src/parser.rs:463-481 | the named-import loop returns and moves as `NamedImportAt` specifies |
| Parser.Parser.ParseImportSpecifier | src/parser.rs:468-471 | one specifier returns and moves as `SpecifierAt` specifies |
| Parser.Parser.ParseDocument | src/parser.rs:172-187 | `parse_document` returns and moves as `DocumentAt` specifies |
| ParserProperties.TrailingCommaInArray | src/parser.rs:240-245 | `[ v , ]` parses as an array with the one element `v` |
| ParserProperties.TrailingCommaInObject | src/parser.rs:199-205 | `{ m , }` parses with the one member `m`, leaving the cursor on the closing `}` |
| ParserProperties.TrailingCommaInStruct | src/parser.rs:539-549 | `{ f , }` in a struct definition parses with the one field `f` |
| ParserProperties.TrailingCommaInEnum | src/parser.rs:584-594 | `{ V , }` in an enum definition parses with the one variant `V` |
| ParserProperties.TrailingCommaInImport | src/parser.rs:467-477 | `{ s , }` in a named import parses with the one specifier `s` |
| ParserProperties.CommaBeforeBrace | src/parser.rs:201-204 | the object loop stops at a comma followed by `}`, leaving the cursor on the `}` |
| ParserProperties.CommaBeforeBracket | src/parser.rs:240-245 | in an array of any length, an element followed by `, ]` is the last: the elements read so far and it are returned, and the loop stops on the `]` |
| ParserProperties.CommaBeforeBraceInFields | src/parser.rs:539-549 | in a struct of any length, a field followed by `, }` is the last, and the loop stops on the `}` |
| ParserProperties.CommaBeforeBraceInVariants | src/parser.rs:584-594 | in an enum of any length, a variant followed by `, }` is the last, and the loop stops on the `}` |
| ParserProperties.CommaBeforeBraceInSpecifiers | src/parser.rs:467-477 | in a named import of any length, a specifier followed by `, }` is the last, and the loop stops on the `}` |
| ParserProperties.ElementFailsAtClose | src/parser.rs:314 | no array element can start at `]` |
| ParserProperties.MemberFailsAtClose | src/parser.rs:323-336 | no member can start at `}` |
| ParserProperties.DoubledCommaInObject | src/parser.rs:199-205 | `, ,` in an object is reported at the second comma, where a key was expected |
| ParserProperties.DoubledCommaInArray | src/parser.rs:240-245 | `, ,` after an array element is reported at the second comma, where a value was expected |
| ParserProperties.ElementFailsAtComma | src/parser.rs:314 | a comma cannot start a value: "a value" is reported there |
| ParserProperties.DoubledCommaInStruct | src/parser.rs:542-550 | `, ,` after a struct field is reported at the second comma, where a field name was expected |
| ParserProperties.DoubledCommaInEnum | src/parser.rs:587-595 | `, ,` after an enum variant is reported at the second comma, where a variant name was expected |
| ParserProperties.DoubledCommaInImport | src/parser.rs:466-478 | `, ,` after an import specifier is reported at the second comma, where a name was expected |
| ParserProperties.SignificantLexEndsWithOnlyEof | src/parser.rs:145-152 | the lexer's output ends with its only Eof, and dropping whitespace and comments keeps it so |
| ParserProperties.DocumentConsumesAll | src/parser.rs:172-187 | a document that parses from the start consumes every token of the stream |
| ParserProperties.TokenAfterRootRejected | src/parser.rs:184 | anything but Eof after the root object is an UnexpectedToken that expected Eof |
| Resolver.FirstEntryFor | src/resolver.rs:40-41 | the stack search finds the first entry for the path, and finds none exactly when the path is not on the stack |
| Resolver.CycleAt | src/resolver.rs:39-61 | a file already on the resolving stack is a cycle, reported at the import recorded for it (or, for the file analysed first, at the import that reached it again); a file not on the stack is none; every cycle the guard as written reports is reported the same way |
| Resolver.SelfImportStack | src/resolver.rs:62-63 | the stack of a root file re-entered `n` times through its own import holds the root entry with no import and then `n` entries caused by that import |
| Resolver.RootSelfImportEscapesGuard | src/resolver.rs:39-63 | as written, the guard never fires for a root file importing itself, however deep the stack grows, and the same file is pushed twice; the corrected check fires at once |
| Resolver.RootCycleReportedOneLapLater | src/resolver.rs:39-63 | for root `a` importing `b` and `b` importing `a`: as written, `a` passes the guard at `b`'s import where the corrected check reports that import, and the guard fires only at the re-import of `b`, reporting `a`'s import with the cycle text `a -> b -> a -> b` |
| Resolver.PushKeepsPathsDistinct | src/resolver.rs:62-63 | with the corrected check, pushing a file that passed it keeps the files on the stack distinct |
| Resolver.DistinctStackDepth | src/resolver.rs:62-63 | a stack of distinct files is no deeper than the number of files, so import recursion is bounded |
| Resolver.StackPaths | src/resolver.rs:43-47 | the cycle text lists the stack's paths in order, one per entry |
| Resolver.CollectAnchorsSpec | src/resolver.rs:142-159 | the anchor table gains exactly the anchor names of the root's pairs, each holding the raw value of the last pair declaring it; other entries are kept |
| Resolver.CollectTypesSpec | src/resolver.rs:142-159 | the symbol table gains exactly the root's type definition names, each holding the last definition with that name; other entries are kept |
| Resolver.DefsNamedSpec | src/resolver.rs:126-133 | a specifier brings in a definition only when the imported file defines that name, and then the last such definition |
| Resolver.SpecifierTypesKeys | src/resolver.rs:124-135 | a named import adds to the symbol table only the names of its specifiers that are not anchors |
| Resolver.NamedImportTypesKeys | src/resolver.rs:118-140 | all named imports together add only their non-anchor specifier names; namespace imports add nothing |
| Resolver.Resolver.constructor | src/resolver.rs:23-30 | a new resolver has no resolved documents, an empty stack, and empty symbol and anchor tables |
| Resolver.Resolver.Resolve | src/resolver.rs:32-178 | a file already on the resolving stack is a cycle (the corrected guard `CycleAt`, which fires on every stack where the guard as written fires and also when the file analysed first is reached again) and fails with CircularDependency at the import `CycleAt` names, changing nothing; otherwise every import's file ends up resolved, the root's anchors and types are recorded, the result keeps the imports and its root is the root expanded and validated; on success the stack is as before and it never holds a file twice |
| Resolver.Resolver.ResolveImports | src/resolver.rs:69-115 | after the import loop succeeds every imported path is resolved and the stack is as before; resolved documents are never forgotten |
| Resolver.Resolver.ResolveImport | src/resolver.rs:70-114 | an import already resolved is skipped and changes nothing; a file that cannot be read is ModuleNotFound at the import, naming its unquoted path; success leaves the path resolved |
| Resolver.Resolver.RegisterNamedImports | src/resolver.rs:117-140 | the symbol table becomes the one the named imports of resolved object files define; nothing else changes |
| Resolver.Resolver.RegisterSpecifiers | src/resolver.rs:124-135 | each non-anchor specifier brings in its definitions from the imported members; nothing else changes |
| Resolver.Resolver.RegisterDefinitionsNamed | src/resolver.rs:126-133 | every definition with the specifier's name is recorded under that name; nothing else changes |
| Resolver.Resolver.CollectDefinitions | src/resolver.rs:142-159 | an object root records its type definitions and its anchored pairs' raw values, the last one winning per name; any other root changes nothing |
| Common.TrimChar | src/resolver.rs:70 | trimming quotes never lengthens the path, leaves no quote at either end, and leaves a path without end quotes as it is |
| Common.Join | src/resolver.rs:43-48 | joining a single path gives that path |
| ResolveValues.ResolveValue | src/resolver.rs:181-330 | literals come back unchanged; an alias becomes its anchor's value, or AnchorNotFound at the alias's own span; a resolved object or array keeps its anchor name, its byte range and its kind |
| ResolveValues.ResolveMemberList | src/resolver.rs:222-231 | the members of an object spread's anchor are resolved one for one, so the spread contributes exactly as many members as the anchor declares |
| ResolveValues.ResolveValueMember | src/resolver.rs:333-347 | a pair keeps its key and validation and only its value is resolved; any other member comes back unchanged |
| ResolveValues.ResolveElement | src/resolver.rs:274-319 | an array element that is not a spread marker resolves to exactly one value |
| ResolveValues.ResolveValueList | src/resolver.rs:289-298 | the elements of an array spread's anchor are resolved one for one, nested spread markers kept as they are |
| ResolveValues.InsertSpec | src/resolver.rs:254-263 | inserting a member into the key-indexed map keeps keys unique, adds the new key, and leaves every other entry as it was |
| ResolveValues.MergeSpec | src/resolver.rs:253-264 | after merging, each key occurs once, the keys are those of the resolved members, and each key holds the last member written with it |
| ResolveValues.MergeLastWins | src/resolver.rs:253-264 | every key of the resolved members survives the merge, holding exactly the last member written with that key |
| ResolveValues.ResolveElementsAppend | src/resolver.rs:272-320 | resolving the elements of a concatenation resolves the parts in order and reports the first error |
| ResolveValues.ArraySpreadSplices | src/resolver.rs:276-298 | a spread marker in an array is replaced in place by its anchor's elements, each resolved, between the resolved elements before and after it |
| ResolveValues.ElementsWithoutSpreadKeepLength | src/resolver.rs:311-318 | an array without spread markers resolves to an array of the same length |
| ResolveValues.ResolveMembersAppend | src/resolver.rs:205-252 | resolving the members of a concatenation resolves the parts in order and reports the first error |
| ResolveValues.LocalKeyAfterSpreadWins | src/resolver.rs:253-264 | in an object whose spread is followed by local pairs, a key written locally occurs once in the result and holds the last local value, whatever the anchor declared |
| ResolveValues.LastWithKey | src/resolver.rs:255-263 | the member the map finally holds for a key is one of the members carrying that key |
| Validation.SplitOnce | src/resolver.rs:478 | splitting at the first `.` fails exactly when there is none, and otherwise gives the text before it (which holds no `.`) and the text after it |
| Validation.FindNamespaceImport | src/resolver.rs:486-494 | the import found for a namespace is one written `import * as ns`; none is found exactly when no import has that form |
| Validation.FindTypeDef | src/resolver.rs:543-553 | a type definition is found in an imported document exactly when its root members include one with that name |
| Validation.LookupType | src/resolver.rs:475-557 | a plain type name is looked up in the symbol table; `ns.T` with no `import * as ns` fails with UndefinedType at the checked value's span |
| Validation.ValidateValue | src/resolver.rs:377-779 | validation never changes a value's anchor, range or node kind; a built-in type name accepts exactly its kind and otherwise reports a mismatch naming the field; `Any` and a spread spec accept anything; an unknown plain name is UndefinedType; a collection spec rejects a non-array |
| Validation.ValidateValueDispatch | src/resolver.rs:475-779 | a user type name is looked up: a failed lookup is that error, an unknown name is UndefinedType at the value, an enum is checked by the enum rule, a struct by the struct rule; a collection annotation on an array passes exactly when the collection check passes, and the array then holds the elements that check gave back |
| Validation.ValidateEnum | src/resolver.rs:672-735 | an enum type accepts exactly the enum values written with its own full name and one of its declared variants, unchanged; a value naming another enum is a mismatch |
| Validation.LastPairIndex | src/resolver.rs:564-571 | the field map built from the object holds, for each key, the last pair written with it; no key is found exactly when no pair has it |
| Validation.FirstRequiredMissing | src/resolver.rs:573-606 | no field is reported missing exactly when every declared field is present or has a default |
| Validation.ValidateFields | src/resolver.rs:573-623 | the field loop changes only pair values, never keys or other members; the pairs to append are exactly the defaults of the missing fields; a missing field without default makes it fail |
| Validation.FieldsChecked | src/resolver.rs:566-606 | for distinct field names, the field loop succeeds exactly when no required field is missing and every field present passes the check of its last pair's value against the field's type |
| Validation.FieldsCheckedValues | src/resolver.rs:566-606 | for distinct field names, after the field loop the last pair of every present field holds that field's checked value |
| Validation.FieldsKeepOthers | src/resolver.rs:566-606 | the field loop leaves every member that is not the last pair of a declared field as it was |
| Validation.FirstUnexpectedKey | src/resolver.rs:625-651 | no extra key is reported exactly when every pair's key is a declared field; a reported key is a pair key that no field declares |
| Validation.ValidateStruct | src/resolver.rs:561-670 | a struct rejects a non-object with a mismatch; on success the object keeps its members' slots, has the defaults of its missing fields appended after them, and holds only declared keys |
| Validation.StructChecksFields | src/resolver.rs:561-651 | for distinct field names, an object passes a struct exactly when no required field is missing, every present field passes its type and every key is a declared field |
| Validation.StructCheckedValues | src/resolver.rs:561-670 | for distinct field names, a struct that passes holds the checked value in the last pair of every present field and leaves every other member as it was |
| Validation.ValidateAll | src/resolver.rs:803-818 | `[T...]` accepts the elements exactly when each one passes the check against the same spec, and gives back each element as that check left it |
| Validation.ValidatePairwise | src/resolver.rs:820-854 | a tuple of the right length accepts the elements exactly when element i passes the check against spec i, and gives back each element as its check left it |
| Validation.ValidateHeadAndRest | src/resolver.rs:856-898 | `[T1, T2...]` accepts a non-empty array exactly when its first element passes `T1` and every other passes `T2`, giving back each element as its check left it |
| Validation.ValidateInitAndLast | src/resolver.rs:901-944 | `[T1..., T2]` accepts a non-empty array exactly when its last element passes `T2` and every other passes `T1`, giving back each element as its check left it |
| Validation.ValidateCollection | src/resolver.rs:781-963 | `[T]` on an empty array panics, and otherwise passes exactly when the first element passes `T`, leaving the rest as they are; `[T...]` passes exactly when every element passes `T`; a tuple of the wrong length is a mismatch, one of the right length checks element by element; `[T1, T2...]` and `[T1..., T2]` on an empty array are mismatches and otherwise check the head and the rest, or the last and the rest |
| Validation.ValidateRootMembers | src/resolver.rs:356-371 | the root loop passes exactly when every pair carrying `:: T` passes the check of its value against `T` under its own key; each such pair then holds the checked value, and every other member stays as it is |
| Validation.ValidateDocumentRoot | src/resolver.rs:349-374 | a non-object root is returned unchanged; an object root passes exactly when each annotated pair passes its check, and then keeps its anchor and range, holds each annotated pair with its checked value and leaves every other member as it is |
| Validation.MissingFieldReportedFirst | src/resolver.rs:573-651 | when an object holds none of the declared fields, the first required one is reported missing before any extra key is noticed |
| Validation.DefaultsCoverMissing | src/resolver.rs:606-623 | the appended defaults supply every missing declared field that has a default |
| Validation.StructHasExactlyDeclaredFields | src/resolver.rs:561-651 | after a successful struct check every declared field is present in the object and every pair in it is a declared field |
| Serialization.BelowIrreflexive | src/serialization.rs:55 | the key order of the object map is strict: no key sorts before itself |
| Serialization.BelowTransitive | src/serialization.rs:55 | the key order of the object map is transitive |
| Serialization.BelowTotal | src/serialization.rs:55 | any two different keys are ordered one way or the other |
| Serialization.Lookup | src/serialization.rs:55 | the map holds a value for a key exactly when the key is one of its entries |
| Serialization.InsertEntryStores | src/serialization.rs:70 | inserting into the map stores the value under its key, adds that key, and leaves every other key's value alone |
| Serialization.InsertEntrySorted | src/serialization.rs:70 | inserting keeps the map's entries in key order |
| Serialization.SortedIncreasing | src/serialization.rs:55 | the entries of the map have strictly increasing keys, so no key occurs twice |
| Serialization.ToValues | src/serialization.rs:63 | an array's conversion has one value per element |
| Serialization.LastPairValueIsLast | src/serialization.rs:66-71 | the value an object key ends up with comes from a pair with that key that no later pair overrides |
| Serialization.PairEntriesSpec | src/serialization.rs:64-74 | the object loop yields sorted entries whose keys are the pairs' keys, each holding the conversion of the last pair with that key |
| Serialization.ScalarsAndLeftovers | src/serialization.rs:58-82 | strings, numbers and booleans convert to the same variant with the same payload; null, aliases, enum values and spread markers, and only they, become Null |
| Serialization.ToValuesElementwise | src/serialization.rs:63 | array elements are converted position by position |
| Serialization.ArrayElementwise | src/serialization.rs:63 | an array keeps its length and order, each element converted |
| Serialization.ObjectKeepsLastPairs | src/serialization.rs:64-74 | an object becomes entries sorted by key, one per distinct pair key and no other, each holding the conversion of the last pair with that key |
| Serialization.NonPairsDropped | src/serialization.rs:66-71 | spreads and type definitions contribute nothing to the converted object |
| Lsp.FindNodeInTypeSpec | src/lsp.rs:82-97 | nothing is found exactly when the position is outside the annotation's span; what is found is an annotation nested in it that holds the position and has no child that holds it; a non-collection annotation holding the position is itself found |
| Lsp.FindInSpecs | src/lsp.rs:88-94 | the children loop finds nothing exactly when no child's span holds the position; a hit holds the position, lies inside the children and has no child that holds it |
| Lsp.FindInSpecsFirstHit | src/lsp.rs:88-94 | the children loop returns the search of the first child that holds the position |
| Lsp.FindNodeInTypeSpecFirstHit | src/lsp.rs:82-97 | inside a collection annotation, the search lands where the search of its first child holding the position lands |
| Lsp.FindSymbolAt | src/lsp.rs:42-80 | nothing is found exactly when the position is outside the value's range; a hit is a node of the tree that holds the position and none of whose pairs, annotations or elements holds it (the deepest one); any validation it carries is an annotation of the tree; with no child holding the position the value itself is found, without validation |
| Lsp.FindSymbolAtFirstHit | src/lsp.rs:46-74 | inside an object the search of the first pair that is hit is taken; inside an array, that of the first element holding the position |
| Lsp.FindSymbolAlong | src/lsp.rs:42-80 | at any depth the search from the top lands on the node found from the value it descends into; a hit without its own validation takes the innermost annotation of a pair passed on the way |
| Lsp.FindInPairs | src/lsp.rs:47-65 | the object loop finds nothing exactly when no pair's annotation or value holds the position; a hit lies inside the members, holds the position and is the deepest node there |
| Lsp.FindInPairsFirstHit | src/lsp.rs:47-65 | the object loop returns the search of the first pair whose annotation or value holds the position |
| Lsp.FindInPair | src/lsp.rs:49-63 | a hit inside a pair's annotation is the innermost annotation there and carries no validation; otherwise a hit inside its value is the value's own hit, taking the pair's annotation as validation when it carries none; a member that is not a pair holds nothing |
| Lsp.FindInElements | src/lsp.rs:68-74 | the array loop finds nothing exactly when no element holds the position; a hit lies inside the elements, holds the position and is the deepest node there |
| Lsp.FindInElementsFirstHit | src/lsp.rs:68-74 | the array loop returns the search of the first element that holds the position |
| Lsp.UsageSpansExact | src/lsp.rs:99-148 | a span is reported as a usage exactly when some alias or simple annotation naming the symbol has that span |
| Lsp.UsageSpansAppend | src/lsp.rs:105-128 | the usages of consecutive parts of the tree are the usages of each part, in order |
| Lsp.FindAllUsages | src/lsp.rs:99-103 | the result is the spans of all aliases and simple annotations naming the symbol, in visiting order |
| Lsp.CollectUsages | src/lsp.rs:105-128 | the usages found in a value are appended to those already collected: its own alias use, then those in its members or elements |
| Lsp.CollectMembersUsages | src/lsp.rs:111-120 | the object loop appends the usages of every member in order |
| Lsp.CollectMemberUsages | src/lsp.rs:112-119 | a pair contributes its annotation's usages, then its value's; other members contribute none |
| Lsp.CollectElementsUsages | src/lsp.rs:122-126 | the array loop appends the usages of every element in order |
| Lsp.CollectSpecUsages | src/lsp.rs:130-148 | an annotation contributes its own span when it is a simple type with the name, then the usages of its children or spread inner |
| Lsp.CollectSpecsUsages | src/lsp.rs:137-141 | the collection loop appends the usages of every child in order |
| Lsp.EnumVariantSpanAsWritten | src/lsp.rs:211-217 | as written, each variant token starts at the enum body's start and covers as many bytes as the body's end offset |
| Lsp.EnumVariantSpanOverruns | src/lsp.rs:214 | an enum body at bytes 10 to 20 gets variant tokens reaching byte 30 |
| Lsp.EnumVariantSpan | src/lsp.rs:211-217 | the intended variant token covers exactly the enum body, which differs from the span as written whenever the body does not start at 0 |
| Lsp.GenerateSemanticTokens | src/lsp.rs:150-162 | the tokens are those of the whole tree in the order they are pushed |
| Lsp.TokensInto | src/lsp.rs:164-274 | a value appends its members' or elements' tokens or its own kind token, then an Anchor token when its anchor is in the table |
| Lsp.MembersTokensInto | src/lsp.rs:172-223 | the object loop appends the tokens of every member in order |
| Lsp.MemberTokensInto | src/lsp.rs:173-222 | a pair appends a Property token, its annotation's tokens and its value's; a type definition a Struct or Enum token at its name, then its fields or variants; a spread nothing |
| Lsp.DefTokensInto | src/lsp.rs:198-219 | a struct appends a Property token and the annotation tokens per field; an enum one Property token per variant |
| Lsp.ElementsTokensInto | src/lsp.rs:225-230 | the array loop appends the tokens of every element in order |
| Lsp.SpecTokensInto | src/lsp.rs:277-295 | an annotation appends one Type token per simple annotation in it, in order |
| Lsp.CountRepeated | src/lsp.rs:212-217 | the variant loop's tokens count as one per variant for their own type and none for any other |
| Lsp.SpecTokenCounts | src/lsp.rs:277-295 | annotations give no Property or Anchor tokens and hold no anchored values |
| Lsp.FieldsTokenCounts | src/lsp.rs:199-210 | a struct gives exactly one Property token per field and no Anchor token |
| Lsp.OwnTokenCounts | src/lsp.rs:231-273 | a value's own kind token is never a Property or Anchor token; its anchor token is present exactly when its anchor name is in the table |
| Lsp.TokenCounts | src/lsp.rs:164-274 | a tree gives exactly one Property token per pair, struct field and enum variant reachable from it, and one Anchor token per visited value whose anchor is in the table |
| Lsp.MembersTokenCounts | src/lsp.rs:172-223 | the members of an object give the Property and Anchor token counts of their pairs, fields, variants and anchored values |
| Lsp.MemberTokenCounts | src/lsp.rs:173-222 | one member gives the Property and Anchor token counts of its own pairs, fields, variants and anchored values |
| Lsp.ElementsTokenCounts | src/lsp.rs:225-230 | the elements of an array give the Property and Anchor token counts of the values they hold |
| Api.Texts | src/api.rs:239-244 | the collection loop prints one text per child, the i-th being the printed i-th child |
| Api.ListTextIsJoin | src/api.rs:237-246 | the children of a collection are printed exactly as the join of their printed forms with `, ` |
| Api.Display | src/api.rs:233-250 | the printed annotation is the name of a simple type, the children in brackets separated by `, ` for a collection, and the inner annotation followed by `...` for a spread |
| Api.FindNodeAt | src/api.rs:145-175 | nothing is found exactly when the position is outside the root's range |
| Api.FindNodeAtAgrees | src/api.rs:145-175 | the node found by `find_node_at` is always the node `find_symbol_at` finds |
| Api.NodeInPairsAgrees | src/api.rs:151-162 | the object loop lands on the same node as the symbol search's object loop |
| Api.NodeInPairAgrees | src/api.rs:152-161 | one pair is searched as the symbol search searches it: annotation first, then value |
| Api.NodeInElementsAgrees | src/api.rs:165-171 | the array loop lands on the same node as the symbol search's array loop |
| Api.GetDefinitionAt | src/api.rs:69-88 | a definition is found only for a position inside the parsed root, and it is the range of some recorded anchor's value or of some type definition's body |
| Api.GetTypeInfoAt | src/api.rs:94-105 | hover text exists exactly when the position is inside the parsed root |
| Api.HoverOnAnnotation | src/api.rs:94-105 | hover inside the annotation of the first pair hit in an object at any depth shows the innermost annotation of an enclosing pair when there is one, else the printed innermost annotation under the cursor |
| Api.HoverOnAnnotatedValue | src/api.rs:94-105 | hover on the value of an annotated pair at any depth, away from any member or element of it, shows that pair's printed annotation |
| Api.HoverOnValue | src/api.rs:94-105 | hover on a value at any depth, away from its members and elements, shows the innermost enclosing pair's annotation, else the value's own description |
| Api.Without | src/api.rs:128-131 | the filter keeps, in order, exactly the spans that differ from the definition |
| Api.FindReferences | src/api.rs:108-133 | references exist exactly when the cursor is on an alias of a known anchor or a simple annotation of a known type, and are then all usages of that name in the parsed tree except those at the definition's span |
| Api.ReferencesExact | src/api.rs:108-133 | a span is a reference exactly when some node using the name has it and it is not the definition's span |
| Api.AliasDefinitionAgrees | src/api.rs:69-88 | on an alias, go-to-definition and find-references use the same definition span |
| Api.TypeDefinitionSpansDiffer | src/api.rs:80-86 | on a type annotation, go-to-definition gives the type's body while find-references leaves out only the type's name span |
| Utils.GetLineAndColumn | src/utils.rs:4-19 | the line is one more than the line breaks before the position, the column one more than the characters since the last of them; positions past the end stop at the end |
| Utils.StartIsOneOne | src/utils.rs:5-6 | position 0 is line 1, column 1 |
| Utils.PastEndIsEnd | src/utils.rs:7-18 | any position at or past the end has the coordinates just after the last character |
| Utils.NewlineCountIsMultiplicity | src/utils.rs:11-13 | the line number counts every line break before the position, wherever it stands |
| Utils.ColumnAfterLastNewline | src/utils.rs:11-16 | after the last line break the column counts exactly the characters since it |

## Left out

- File reading is a lookup in a map from paths to texts; an unreadable file is a path missing from it.
- Path `parent` and `join` are left uninterpreted (two functions given to the resolver), so nothing depends on how paths are normalised.
- ResolveValues.ResolveValue: expanding a spread re-resolves the anchor's raw value, which need not terminate (`{ &b: { x: { ...*b } } }`); each expansion spends one unit of a `fuel` budget and running out is the extra error OutOfFuel, where the source would recurse until the stack overflows.
- Validation.ValidateValue: a struct with two fields of the same name re-validates a value it has already changed, so it carries the same `fuel` budget and the same OutOfFuel error.
- Resolver.Resolver.Resolve: the depth of nested imports is bounded by the same `fuel`. In the source a chain of imports is as deep as the number of files plus one, since the file analysed first can be pushed a second time. The exception is that file importing itself, directly and before any other import brings it back: its guard as written never fires on it (see Findings), and the recursion goes on until the stack overflows.
- Validation.FieldsChecked, Validation.FieldsCheckedValues, Validation.StructChecksFields and Validation.StructCheckedValues: state what the struct check checks only for structs whose field names are distinct; with a repeated field name the source checks the same pair twice, the second time against the value the first check produced.
- Resolver.Resolver.Resolve: applies the corrected cycle guard Resolver.CycleAt, not the guard as written, Resolver.CycleGuard. On a given stack the two agree whenever the guard as written fires. They part only when the file analysed first is reached again. The model then reports the cycle at once, at the import that reached that file; for root `a` importing `b` and `b` importing `a`, that is `b`'s import of `a` with the text `a -> b -> a`. The source instead pushes the first file a second time. Its second pass re-imports the next file of the cycle, which is not yet resolved, and the guard as written fires there, one lap later. It reports that file's recorded import, `a`'s import of `b`, with the longer text `a -> b -> a -> b` (Resolver.RootCycleReportedOneLapLater). Only a direct self-import of the first file, reached before another import of the cycle, is never reported (see Findings).
- The merge of an object's members after spreading goes through a hash map whose iteration order is unspecified; the model keeps the members in the order their keys were first seen, and only the key set and the last-value-wins rule are claimed.
- Members that are not pairs are keyed by their debug text in that merge; the model keys them by the member itself, so two members merge exactly when they are equal.
- Numbers keep their lexeme; the `f64` value and its arithmetic are not modelled, and whether a lexeme is a number is the float literal grammar written out.
- `char::is_whitespace` is written out as the list of Unicode white-space characters.
- The debug `print!` of the caller's location in `err_unexpected` (src/parser.rs:782) writes to standard output and is not modelled; Parser.Parser.ErrUnexpected returns the error alone.
- The Display text of a value's kind (used for hover text on a value) is a parameter `kindText` of Api.GetTypeInfoAt.
- `Pair::get_span` (the span of a pair's Property token) is a parameter `pairSpan` of the semantic token functions.
- Diagnostic spans are (offset, length) pairs in the source; the model holds them by their two ends.
- The api module's `find_node_in_type_spec` is the same function as the position-query module's and is modelled once, as Lsp.FindNodeInTypeSpec.
- The JSON and YAML output of an analysis (`to_json`, `to_yaml`) and the `analyze` entry point, which reads the current directory, are not modelled.
- Error rendering (the named source text, help messages, line excerpts) is not modelled; errors keep their variant, names and span.
- `[T]` applied to an empty array indexes an empty slice and panics in the source; the model returns the error IndexPanic.
- Api.GetTypeInfoAt states when hover text exists; its content is stated, for a value or object reached at any depth along a path `Lsp.Descend` follows, by Api.HoverOnAnnotation (a position inside a pair's annotation), Api.HoverOnAnnotatedValue (on an annotated pair's value) and Api.HoverOnValue (on any value). That every position inside the root is reached along some such path is not proved. Only the text for a value without an enclosing annotation comes from the `kindText` parameter.
- Lsp.GenerateSemanticTokens: an enum variant token covers the enum body, bytes `pos_start` to `pos_end` (Lsp.EnumVariantSpan), not the span the source builds at src/lsp.rs:214, which reads `pos_end` as a length (Lsp.EnumVariantSpanAsWritten; see Findings).
- Lsp.TokensInto: an enum variant token covers the enum body, bytes `pos_start` to `pos_end` (Lsp.EnumVariantSpan), not the span the source builds at src/lsp.rs:214, which reads `pos_end` as a length (Lsp.EnumVariantSpanAsWritten; see Findings).
- Lsp.MembersTokensInto: an enum variant token covers the enum body, bytes `pos_start` to `pos_end` (Lsp.EnumVariantSpan), not the span the source builds at src/lsp.rs:214, which reads `pos_end` as a length (Lsp.EnumVariantSpanAsWritten; see Findings).
- Lsp.MemberTokensInto: an enum variant token covers the enum body, bytes `pos_start` to `pos_end` (Lsp.EnumVariantSpan), not the span the source builds at src/lsp.rs:214, which reads `pos_end` as a length (Lsp.EnumVariantSpanAsWritten; see Findings).
- Lsp.DefTokensInto: an enum variant token covers the enum body, bytes `pos_start` to `pos_end` (Lsp.EnumVariantSpan), not the span the source builds at src/lsp.rs:214, which reads `pos_end` as a length (Lsp.EnumVariantSpanAsWritten; see Findings).
- Lsp.ElementsTokensInto: an enum variant token covers the enum body, bytes `pos_start` to `pos_end` (Lsp.EnumVariantSpan), not the span the source builds at src/lsp.rs:214, which reads `pos_end` as a length (Lsp.EnumVariantSpanAsWritten; see Findings).
- Api.GetDefinitionAt states that the span found belongs to some anchor or type definition, not which one; Api.AliasDefinitionAgrees and Api.TypeDefinitionSpansDiffer pin it down on aliases and annotations.

## Findings

| source | as written | input that shows it | evidently intended | confidence | as-written member | corrected member |
|---|---|---|---|---|---|---|
| src/resolver.rs:39-63 | the cycle guard fires only when the first stack entry for the file records the import that reached it; the file analysed first records none | `/d/a.mon` containing `import * as a from "a.mon"`, analysed as the root: it is pushed again on every round and no CircularDependency is reported | any file already on the resolving stack is a cycle | not executed | Resolver.RootSelfImportEscapesGuard | Resolver.CycleAt |
| src/lsp.rs:214 | each enum variant token gets `SourceSpan::from((pos_start, pos_end))`, whose second component is a length | an enum body at bytes 10 to 20 gives variant tokens covering bytes 10 to 30 | the token covers the enum body, bytes `pos_start` to `pos_end` | not executed | Lsp.EnumVariantSpanOverruns | Lsp.EnumVariantSpan |

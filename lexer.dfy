/**
 * The MON lexer: a character-at-a-time scanner with a byte-offset cursor.
 *
 * The pure functions below say what one call of `next_token` and one call of
 * `lex` produce from a given character index; the `Lexer` class is the
 * scanner itself and every method of it is proved to agree with them.
 * The peekable character iterator of the scanner is modelled by the input
 * string and a character index into it; the byte offset `position` is kept
 * beside it and is always the UTF-8 size of the characters consumed.
 */
module Lexer {
  import opened Common

  /** The kinds of token. A number keeps its lexeme (the `f64` value is not modelled). */
  datatype TokenType =
    | Eof
    | Whitespace
    | Comment(text: string)
    | Unknown
    | Identifier(name: string)
    | String(value: string)
    | Number(lexeme: string)
    | True
    | False
    | Null
    | Import
    | From
    | As
    | LBrace
    | RBrace
    | LBracket
    | RBracket
    | LParen
    | RParen
    | Comma
    | Colon
    | DoubleColon
    | Dot
    | Equals
    | Hash
    | Dollar
    | Ampersand
    | Asterisk
    | Spread

  /** A token with its half-open byte range `[posStart, posEnd)`. */
  datatype Token = Token(ttype: TokenType, posStart: nat, posEnd: nat)

  // ---------------------------------------------------------------------
  // Character classes and UTF-8 sizes
  // ---------------------------------------------------------------------

  /** Rust's `char::is_whitespace`: the Unicode White_Space property. */
  predicate IsWhitespace(c: char)
  {
    ('\t' <= c <= '\r') || c == ' ' || c == '\U{0085}' || c == '\U{00A0}' || c == '\U{1680}'
    || ('\U{2000}' <= c <= '\U{200A}') || c == '\U{2028}' || c == '\U{2029}'
    || c == '\U{202F}' || c == '\U{205F}' || c == '\U{3000}'
  }

  predicate IsAsciiDigit(c: char) { '0' <= c <= '9' }

  predicate IsAsciiAlpha(c: char) { ('a' <= c <= 'z') || ('A' <= c <= 'Z') }

  /** A character that may continue an identifier. */
  predicate IsIdentChar(c: char) { IsAsciiAlpha(c) || IsAsciiDigit(c) || c == '_' }

  /** Rust's `char::len_utf8`. */
  function Utf8CharLen(c: char): (n: nat)
    ensures 1 <= n <= 4
  {
    if c as int < 0x80 then 1
    else if c as int < 0x800 then 2
    else if c as int < 0x10000 then 3
    else 4
  }

  /** The number of bytes of the UTF-8 encoding of `s`. */
  function Utf8Length(s: string): (n: nat)
    ensures |s| <= n <= 4 * |s|
  {
    if s == [] then 0 else Utf8Length(s[..|s| - 1]) + Utf8CharLen(s[|s| - 1])
  }

  /** The byte offset of character index `i` of `s`: the UTF-8 size of the characters before it. */
  function ByteOffset(s: string, i: nat): (n: nat)
    requires i <= |s|
    ensures i <= n <= 4 * i
  {
    if i == 0 then 0 else ByteOffset(s, i - 1) + Utf8CharLen(s[i - 1])
  }

  /** The byte offset of `i` is the UTF-8 length of the first `i` characters. */
  lemma {:induction false} ByteOffsetIsPrefixLength(s: string, i: nat)
    requires i <= |s|
    ensures ByteOffset(s, i) == Utf8Length(s[..i])
    decreases i
  {
    if i > 0 {
      assert s[..i][..i - 1] == s[..i - 1];
      ByteOffsetIsPrefixLength(s, i - 1);
    }
  }

  /** Every character takes at least one byte. */
  lemma {:induction false} ByteOffsetGrows(s: string, i: nat, j: nat)
    requires i <= j <= |s|
    ensures ByteOffset(s, i) + (j - i) <= ByteOffset(s, j)
    decreases j
  {
    if i < j {
      ByteOffsetGrows(s, i, j - 1);
    }
  }

  // ---------------------------------------------------------------------
  // What one token is: the specification of `next_token`
  // ---------------------------------------------------------------------

  /** The result of scanning one token: its type and the character index after it. */
  datatype Scanned = Scanned(ttype: TokenType, end: nat)

  /** The first index at or after `i` that does not hold a whitespace character. */
  function WhitespaceEnd(s: string, i: nat): (e: nat)
    requires i <= |s|
    ensures i <= e <= |s|
    ensures e == |s| || !IsWhitespace(s[e])
    decreases |s| - i
  {
    if i < |s| && IsWhitespace(s[i]) then WhitespaceEnd(s, i + 1) else i
  }

  /** The first index at or after `i` holding a newline, or the end of the input. */
  function LineEnd(s: string, i: nat): (e: nat)
    requires i <= |s|
    ensures i <= e <= |s|
    ensures e == |s| || s[e] == '\n'
    decreases |s| - i
  {
    if i < |s| && s[i] != '\n' then LineEnd(s, i + 1) else i
  }

  /** The first index at or after `i` that cannot continue an identifier. */
  function IdentEnd(s: string, i: nat): (e: nat)
    requires i <= |s|
    ensures i <= e <= |s|
    ensures e == |s| || !IsIdentChar(s[e])
    decreases |s| - i
  {
    if i < |s| && IsIdentChar(s[i]) then IdentEnd(s, i + 1) else i
  }

  /** Everything `WhitespaceEnd` skips is whitespace. */
  lemma {:induction false} WhitespaceRun(s: string, i: nat)
    requires i <= |s|
    ensures forall k :: i <= k < WhitespaceEnd(s, i) ==> IsWhitespace(s[k])
    decreases |s| - i
  {
    if i < |s| && IsWhitespace(s[i]) {
      WhitespaceRun(s, i + 1);
    }
  }

  /** `LineEnd` skips no newline. */
  lemma {:induction false} LineRun(s: string, i: nat)
    requires i <= |s|
    ensures forall k :: i <= k < LineEnd(s, i) ==> s[k] != '\n'
    decreases |s| - i
  {
    if i < |s| && s[i] != '\n' {
      LineRun(s, i + 1);
    }
  }

  /** Everything `IdentEnd` skips may continue an identifier. */
  lemma {:induction false} IdentRun(s: string, i: nat)
    requires i <= |s|
    ensures forall k :: i <= k < IdentEnd(s, i) ==> IsIdentChar(s[k])
    decreases |s| - i
  {
    if i < |s| && IsIdentChar(s[i]) {
      IdentRun(s, i + 1);
    }
  }

  /** `s` without its leading whitespace (Rust's `trim_start`). */
  function TrimStart(s: string): (r: string)
    ensures |r| <= |s|
  {
    if s != [] && IsWhitespace(s[0]) then TrimStart(s[1..]) else s
  }

  /** `s` without its trailing whitespace (Rust's `trim_end`). */
  function TrimEnd(s: string): (r: string)
    ensures |r| <= |s|
  {
    if s != [] && IsWhitespace(s[|s| - 1]) then TrimEnd(s[..|s| - 1]) else s
  }

  /** Rust's `str::trim`. */
  function Trim(s: string): string
  {
    TrimEnd(TrimStart(s))
  }

  /** `trim_start` drops a run of whitespace and keeps the rest, which starts with no whitespace. */
  lemma {:induction false} TrimStartShape(s: string)
    ensures var r := TrimStart(s);
            && r == s[|s| - |r|..]
            && (forall k :: 0 <= k < |s| - |r| ==> IsWhitespace(s[k]))
            && (r == [] || !IsWhitespace(r[0]))
    decreases |s|
  {
    if s != [] && IsWhitespace(s[0]) {
      TrimStartShape(s[1..]);
    }
  }

  /** `trim_end` drops a run of whitespace and keeps the rest, which ends with no whitespace. */
  lemma {:induction false} TrimEndShape(s: string)
    ensures var r := TrimEnd(s);
            && r == s[..|r|]
            && (forall k :: |r| <= k < |s| ==> IsWhitespace(s[k]))
            && (r == [] || !IsWhitespace(r[|r| - 1]))
    decreases |s|
  {
    if s != [] && IsWhitespace(s[|s| - 1]) {
      TrimEndShape(s[..|s| - 1]);
    }
  }

  /** `trim` keeps a contiguous part of `s` and drops only whitespace around it; the part kept neither starts nor ends with whitespace. */
  lemma TrimShape(s: string)
    ensures var a, r := |s| - |TrimStart(s)|, Trim(s);
            && a + |r| <= |s| && r == s[a..a + |r|]
            && (forall k :: 0 <= k < a ==> IsWhitespace(s[k]))
            && (forall k :: a + |r| <= k < |s| ==> IsWhitespace(s[k]))
            && (r == [] || (!IsWhitespace(r[0]) && !IsWhitespace(r[|r| - 1])))
  {
    TrimStartShape(s);
    var m := TrimStart(s);
    TrimEndShape(m);
    var r := TrimEnd(m);
    var a := |s| - |m|;
    assert r == s[a..a + |r|];
    if r != [] {
      assert r[0] == m[0];
    }
    forall k | a + |r| <= k < |s|
      ensures IsWhitespace(s[k])
    {
      assert s[k] == m[k - a];
    }
  }

  /** What an escape `\c` inside a string literal stands for. */
  function Unescape(c: char): string
  {
    if c == '"' then "\""
    else if c == '\\' then "\\"
    else if c == 'n' then "\n"
    else if c == 'r' then "\r"
    else if c == 't' then "\t"
    else ['\\', c]
  }

  /**
   * The rest of a string literal from index `i` (just after the opening quote or
   * an escape), with `acc` the text decoded so far: a String token at the
   * closing quote, Unknown when the input ends first.
   */
  function ScanString(s: string, i: nat, acc: string): (r: Scanned)
    requires i <= |s|
    ensures i < r.end <= |s| || (i == r.end == |s|)
    ensures r.ttype.String? || r.ttype.Unknown?
    ensures r.ttype.Unknown? ==> r.end == |s|
    decreases |s| - i
  {
    if i == |s| then Scanned(Unknown, i)
    else if s[i] == '"' then Scanned(String(acc), i + 1)
    else if s[i] == '\\' then
      if i + 1 == |s| then Scanned(Unknown, i + 1)
      else ScanString(s, i + 2, acc + Unescape(s[i + 1]))
    else ScanString(s, i + 1, acc + [s[i]])
  }

  /**
   * Where a number lexeme ends: digits, a `.` while none was taken, and an
   * `e`/`E` while none was taken, optionally followed by one `+` or `-`.
   */
  function NumberEnd(s: string, i: nat, hasDot: bool, hasExponent: bool): (e: nat)
    requires i <= |s|
    ensures i <= e <= |s|
    decreases |s| - i
  {
    if i == |s| then i
    else if IsAsciiDigit(s[i]) then NumberEnd(s, i + 1, hasDot, hasExponent)
    else if s[i] == '.' && !hasDot then NumberEnd(s, i + 1, true, hasExponent)
    else if (s[i] == 'e' || s[i] == 'E') && !hasExponent then
      if i + 1 < |s| && (s[i + 1] == '+' || s[i + 1] == '-') then NumberEnd(s, i + 2, hasDot, true)
      else NumberEnd(s, i + 1, hasDot, true)
    else i
  }

  /** At an `e`/`E` not yet taken, the lexeme goes on past it and past one sign after it. */
  lemma NumberEndAtExponent(s: string, j: nat, hasDot: bool)
    requires j < |s| && (s[j] == 'e' || s[j] == 'E') && !IsAsciiDigit(s[j])
    ensures NumberEnd(s, j, hasDot, false)
            == if j + 1 < |s| && (s[j + 1] == '+' || s[j + 1] == '-') then NumberEnd(s, j + 2, hasDot, true)
               else NumberEnd(s, j + 1, hasDot, true)
  {
  }

  predicate AllDigits(s: string) { forall k :: 0 <= k < |s| ==> IsAsciiDigit(s[k]) }

  /** The number of leading ASCII digits of `s`. */
  function DigitPrefix(s: string): (n: nat)
    ensures n <= |s| && AllDigits(s[..n])
    ensures n == |s| || !IsAsciiDigit(s[n])
  {
    if s != [] && IsAsciiDigit(s[0]) then
      var n := DigitPrefix(s[1..]);
      assert s[..n + 1] == [s[0]] + s[1..][..n];
      n + 1
    else 0
  }

  /** The index of the first `e` or `E` of `s`, or `|s|`. */
  function ExponentIndex(s: string): (k: nat)
    ensures k <= |s|
    ensures forall j :: 0 <= j < k ==> s[j] != 'e' && s[j] != 'E'
    ensures k < |s| ==> s[k] == 'e' || s[k] == 'E'
  {
    if s == [] then 0
    else if s[0] == 'e' || s[0] == 'E' then 0
    else ExponentIndex(s[1..]) + 1
  }

  function StripSign(s: string): string
  {
    if s != [] && (s[0] == '+' || s[0] == '-') then s[1..] else s
  }

  /** `digits`, `digits.`, `digits.digits` or `.digits`, with at least one digit. */
  predicate ValidMantissa(m: string)
  {
    var d := DigitPrefix(m);
    if d == |m| then d > 0
    else m[d] == '.' && AllDigits(m[d + 1..]) && (d > 0 || d + 1 < |m|)
  }

  /**
   * The decimal grammar of Rust's `f64::from_str`: an optional sign, a mantissa
   * and an optional exponent `e`/`E`, optional sign, one or more digits.
   * (The spelled-out `inf`/`nan` forms cannot come out of the scanner, which
   * only takes digits, dots, signs and `e`/`E`.)
   */
  predicate ValidFloatLiteral(s: string)
  {
    var body := StripSign(s);
    var k := ExponentIndex(body);
    ValidMantissa(body[..k]) && (k == |body| || (StripSign(body[k + 1..]) != [] && AllDigits(StripSign(body[k + 1..]))))
  }

  /** A number starting at `i`: the maximal lexeme, a Number token when it parses as a float, else Unknown. */
  function ScanNumber(s: string, i: nat): (r: Scanned)
    requires i < |s|
    ensures i < r.end <= |s|
    ensures r.ttype.Number? ==> r.ttype.lexeme == s[i..r.end] && ValidFloatLiteral(s[i..r.end])
    ensures r.ttype.Number? || r.ttype.Unknown?
  {
    var e := NumberEnd(s, i + 1, s[i] == '.', false);
    if ValidFloatLiteral(s[i..e]) then Scanned(Number(s[i..e]), e) else Scanned(Unknown, e)
  }

  /** The token an identifier-shaped word stands for. */
  function Keyword(word: string): (t: TokenType)
    ensures t.Identifier? ==> t.name == word
    ensures !t.Identifier? ==> |word| <= 6
  {
    if word == "true" || word == "on" then True
    else if word == "false" || word == "off" then False
    else if word == "null" then Null
    else if word == "import" then Import
    else if word == "from" then From
    else if word == "as" then As
    else Identifier(word)
  }

  /** The one-character tokens: the punctuation arms of `next_token` that never look ahead. */
  function SingleCharToken(c: char): Option<TokenType>
  {
    if c == '{' then Some(LBrace)
    else if c == '}' then Some(RBrace)
    else if c == '[' then Some(LBracket)
    else if c == ']' then Some(RBracket)
    else if c == '(' then Some(LParen)
    else if c == ')' then Some(RParen)
    else if c == ',' then Some(Comma)
    else if c == '#' then Some(Hash)
    else if c == '$' then Some(Dollar)
    else if c == '&' then Some(Ampersand)
    else if c == '*' then Some(Asterisk)
    else if c == '=' then Some(Equals)
    else None
  }

  /** The token starting with the character at index `i`, for the arms that look ahead or read on. */
  function ScanMultiChar(s: string, i: nat): (r: Scanned)
    requires i < |s|
    ensures !r.ttype.Eof? && i < r.end <= |s|
  {
    var c := s[i];
    if c == ':' || c == '.' || c == '/' then ScanPunctuation(s, i) else ScanLexeme(s, i)
  }

  /** The arms for `:`, `.` and `/`, which look one or two characters ahead. */
  function ScanPunctuation(s: string, i: nat): (r: Scanned)
    requires i < |s| && (s[i] == ':' || s[i] == '.' || s[i] == '/')
    ensures !r.ttype.Eof? && i < r.end <= |s|
  {
    var c := s[i];
    if c == ':' then
      if i + 1 < |s| && s[i + 1] == ':' then Scanned(DoubleColon, i + 2) else Scanned(Colon, i + 1)
    else if c == '.' then
      if i + 1 < |s| && s[i + 1] == '.' then
        if i + 2 < |s| && s[i + 2] == '.' then Scanned(Spread, i + 3) else Scanned(Unknown, i + 2)
      else Scanned(Dot, i + 1)
    else
      if i + 1 < |s| && s[i + 1] == '/' then
        var e := LineEnd(s, i + 2);
        Scanned(Comment(Trim(s[i + 2..e])), e)
      else Scanned(Unknown, i + 1)
  }

  /** The arms that read on: a string, whitespace, an identifier or keyword, a number; Unknown otherwise. */
  function ScanLexeme(s: string, i: nat): (r: Scanned)
    requires i < |s|
    ensures !r.ttype.Eof? && i < r.end <= |s|
  {
    var c := s[i];
    if c == '"' then ScanString(s, i + 1, [])
    else if IsWhitespace(c) then Scanned(Whitespace, WhitespaceEnd(s, i + 1))
    else if IsAsciiAlpha(c) || c == '_' then
      var e := IdentEnd(s, i + 1);
      Scanned(Keyword(s[i..e]), e)
    else if IsAsciiDigit(c) || (c == '-' && i + 1 < |s| && IsAsciiDigit(s[i + 1])) then
      ScanNumber(s, i)
    else Scanned(Unknown, i + 1)
  }

  /** The token starting at character index `i`: what `next_token` returns there. */
  function ScanToken(s: string, i: nat): (r: Scanned)
    requires i <= |s|
    ensures r.ttype.Eof? <==> i == |s|
    ensures r.ttype.Eof? ==> r.end == i
    ensures !r.ttype.Eof? ==> i < r.end <= |s|
  {
    if i == |s| then Scanned(Eof, i)
    else if SingleCharToken(s[i]).Some? then Scanned(SingleCharToken(s[i]).value, i + 1)
    else ScanMultiChar(s, i)
  }

  /** The token `next_token` returns at character index `i`, with its byte range. */
  function TokenAt(s: string, i: nat): (t: Token)
    requires i <= |s|
  {
    var r := ScanToken(s, i);
    Token(r.ttype, ByteOffset(s, i), ByteOffset(s, r.end))
  }

  /** The tokens `lex` returns from character index `i`: the token there, then the rest unless it was Eof. */
  function LexFrom(s: string, i: nat): (ts: seq<Token>)
    requires i <= |s|
    ensures |ts| >= 1 && ts[0] == TokenAt(s, i)
    decreases |s| - i
  {
    var r := ScanToken(s, i);
    if r.ttype.Eof? then [TokenAt(s, i)] else [TokenAt(s, i)] + LexFrom(s, r.end)
  }

  /** A slice is its first character followed by the rest. */
  lemma HeadAndRest(s: string, i: nat, j: nat)
    requires i < j <= |s|
    ensures [s[i]] + s[i + 1..j] == s[i..j]
  {
  }

  /** A prefix-extended lexeme: appending the slice `[j..k]` to `head + s[i..j]` gives `head + s[i..k]`. */
  lemma ExtendLexeme(head: string, s: string, i: nat, j: nat, k: nat)
    requires i <= j <= k <= |s|
    ensures (head + s[i..j]) + s[j..k] == head + s[i..k]
  {
    assert s[i..k] == s[i..j] + s[j..k];
    Common.ConcatAssoc(head, s[i..j], s[j..k]);
  }

  /** Past a token that is not Eof, lexing goes on where that token ends. */
  lemma LexFromStep(s: string, i: nat)
    requires i <= |s| && !TokenAt(s, i).ttype.Eof?
    ensures LexFrom(s, i) == [TokenAt(s, i)] + LexFrom(s, ScanToken(s, i).end)
  {
  }

  /**
   * The tokens tile the input from character index `i`: the first starts at the
   * byte offset of `i`, each starts where the previous one ends, every token but
   * the last is non-empty and not Eof, and the last is the only Eof, empty, at
   * the input's byte length.
   */
  lemma {:induction false} LexTiling(s: string, i: nat)
    requires i <= |s|
    ensures var ts := LexFrom(s, i);
            && ts[0].posStart == ByteOffset(s, i)
            && ts[|ts| - 1] == Token(Eof, Utf8Length(s), Utf8Length(s))
            && (forall k :: 0 <= k < |ts| - 1 ==> !ts[k].ttype.Eof? && ts[k].posStart < ts[k].posEnd)
            && (forall k :: 0 < k < |ts| ==> ts[k].posStart == ts[k - 1].posEnd)
    decreases |s| - i
  {
    var r := ScanToken(s, i);
    if r.ttype.Eof? {
      ByteOffsetIsPrefixLength(s, i);
      assert s[..i] == s;
    } else {
      ByteOffsetGrows(s, i, r.end);
      LexTiling(s, r.end);
      var rest := LexFrom(s, r.end);
      var ts := [TokenAt(s, i)] + rest;
      assert LexFrom(s, i) == ts;
      forall k | 0 < k < |ts|
        ensures ts[k].posStart == ts[k - 1].posEnd
      {
        if k > 1 {
          assert ts[k] == rest[k - 1] && ts[k - 1] == rest[k - 2];
        }
      }
    }
  }

  // ---------------------------------------------------------------------
  // Properties of single tokens
  // ---------------------------------------------------------------------

  /** `::` is one DoubleColon, a lone `:` a Colon; `...` is a Spread, `..` one two-byte Unknown, `.` a Dot. */
  lemma ColonAndDotLookahead(s: string, i: nat)
    requires i < |s| && (s[i] == ':' || s[i] == '.')
    ensures var r := ScanToken(s, i);
            && (s[i] == ':' && i + 1 < |s| && s[i + 1] == ':' ==> r == Scanned(DoubleColon, i + 2))
            && (s[i] == ':' && !(i + 1 < |s| && s[i + 1] == ':') ==> r == Scanned(Colon, i + 1))
            && (s[i] == '.' && i + 2 < |s| && s[i + 1] == '.' && s[i + 2] == '.' ==> r == Scanned(Spread, i + 3))
            && (s[i] == '.' && i + 1 < |s| && s[i + 1] == '.' && !(i + 2 < |s| && s[i + 2] == '.')
                ==> r == Scanned(Unknown, i + 2) && TokenAt(s, i).posEnd - TokenAt(s, i).posStart == 2)
            && (s[i] == '.' && !(i + 1 < |s| && s[i + 1] == '.') ==> r == Scanned(Dot, i + 1))
  {
    if s[i] == '.' && i + 1 < |s| && s[i + 1] == '.' {
      assert ByteOffset(s, i + 2) == ByteOffset(s, i) + 2;
    }
  }

  /**
   * `//` starts a comment that runs up to, not including, the next newline (or
   * the end of the input); its text is that run with surrounding whitespace
   * removed. A `/` not followed by `/` is a one-character Unknown.
   */
  lemma CommentToken(s: string, i: nat)
    requires i < |s| && s[i] == '/'
    ensures var r := ScanToken(s, i);
            if i + 1 < |s| && s[i + 1] == '/' then
              && (r.end == |s| || s[r.end] == '\n')
              && (forall k :: i + 2 <= k < r.end ==> s[k] != '\n')
              && r.ttype == Comment(Trim(s[i + 2..r.end]))
            else r == Scanned(Unknown, i + 1)
  {
    if i + 1 < |s| && s[i + 1] == '/' {
      LineRun(s, i + 2);
    }
  }

  /** The identifier scanned from `i`: the longest run of identifier characters, mapped through the keyword table. */
  lemma IdentifierToken(s: string, i: nat)
    requires i < |s| && (IsAsciiAlpha(s[i]) || s[i] == '_')
    ensures var r := ScanToken(s, i);
            && (forall k :: i <= k < r.end ==> IsIdentChar(s[k]))
            && (r.end == |s| || !IsIdentChar(s[r.end]))
            && r.ttype == Keyword(s[i..r.end])
  {
    assert SingleCharToken(s[i]).None?;
    IdentRun(s, i + 1);
  }

  /** Exactly the eight reserved spellings are not identifiers; `true`/`on` and `false`/`off` share a token. */
  lemma KeywordTable(word: string)
    ensures Keyword(word).Identifier? <==> word !in ["true", "on", "false", "off", "null", "import", "from", "as"]
    ensures (Keyword(word) == True <==> word == "true" || word == "on")
    ensures (Keyword(word) == False <==> word == "false" || word == "off")
  {
  }

  /** Escapes a text so that the scanner reads it back: the five decoded escapes are produced, nothing else is escaped. */
  function Escape(v: string): (e: string)
    ensures |v| <= |e| <= 2 * |v|
  {
    if v == [] then []
    else
      var c := v[0];
      var head := if c == '"' then "\\\"" else if c == '\\' then "\\\\" else if c == '\n' then "\\n"
                  else if c == '\r' then "\\r" else if c == '\t' then "\\t" else [c];
      head + Escape(v[1..])
  }

  /** Reading an escaped text back, up to its closing quote, yields the text: decoding inverts `Escape`. */
  lemma {:induction false} EscapeRoundTrip(p: string, v: string, rest: string, acc: string)
    ensures var s := p + Escape(v) + ['"'] + rest;
            ScanString(s, |p|, acc) == Scanned(String(acc + v), |p| + |Escape(v)| + 1)
    decreases |v|
  {
    var s := p + Escape(v) + ['"'] + rest;
    if v == [] {
      assert s[|p|] == '"';
      assert acc + v == acc;
    } else {
      var c := v[0];
      var e := Escape(v);
      var tail := Escape(v[1..]);
      var head := e[..|e| - |tail|];
      assert e == head + tail;
      assert s == (p + head) + tail + ['"'] + rest;
      EscapeRoundTrip(p + head, v[1..], rest, acc + [c]);
      assert (acc + [c]) + v[1..] == acc + v;
      if c == '"' || c == '\\' || c == '\n' || c == '\r' || c == '\t' {
        assert |head| == 2 && s[|p|] == '\\' && s[|p| + 1] == head[1];
        assert Unescape(head[1]) == [c];
      } else {
        assert |head| == 1 && s[|p|] == c;
      }
    }
  }

  /** A string literal whose closing quote never comes is Unknown and runs to the end of the input. */
  lemma {:induction false} UnclosedString(s: string, i: nat, acc: string)
    requires i <= |s|
    requires forall k :: i <= k < |s| ==> s[k] != '"'
    ensures ScanString(s, i, acc) == Scanned(Unknown, |s|)
    decreases |s| - i
  {
    if i < |s| {
      if s[i] == '\\' {
        if i + 1 < |s| {
          UnclosedString(s, i + 2, acc + Unescape(s[i + 1]));
        }
      } else {
        UnclosedString(s, i + 1, acc + [s[i]]);
      }
    }
  }

  /** The number of occurrences of `c` in `s`. */
  function Occurrences(s: string, c: char): nat
  {
    if s == [] then 0 else (if s[0] == c then 1 else 0) + Occurrences(s[1..], c)
  }

  /** A character the number scanner may take after the first one: a digit, `.`, `e`, `E`, or a sign right after `e`/`E`. */
  predicate NumberCharAt(s: string, k: nat)
    requires k < |s|
  {
    IsAsciiDigit(s[k]) || s[k] == '.' || s[k] == 'e' || s[k] == 'E'
    || ((s[k] == '+' || s[k] == '-') && k > 0 && (s[k - 1] == 'e' || s[k - 1] == 'E'))
  }

  lemma {:induction false} NumberEndShape(s: string, i: nat, hasDot: bool, hasExponent: bool)
    requires i <= |s|
    ensures var e := NumberEnd(s, i, hasDot, hasExponent);
            && Occurrences(s[i..e], '.') <= (if hasDot then 0 else 1)
            && Occurrences(s[i..e], 'e') + Occurrences(s[i..e], 'E') <= (if hasExponent then 0 else 1)
            && (forall k :: i <= k < e ==> NumberCharAt(s, k))
    decreases |s| - i, 1
  {
    var e := NumberEnd(s, i, hasDot, hasExponent);
    if i < |s| && e > i {
      var c := s[i];
      OccurrencesStep(s, i, e);
      if IsAsciiDigit(c) || (c == '.' && !hasDot) {
        NumberEndShape(s, i + 1, hasDot || c == '.', hasExponent);
      } else {
        NumberEndShapeAtExponent(s, i, hasDot);
      }
    }
  }

  /** The exponent case of `NumberEndShape`: an `e`/`E` not yet taken, and an optional sign after it. */
  lemma {:induction false} NumberEndShapeAtExponent(s: string, i: nat, hasDot: bool)
    requires i < |s| && (s[i] == 'e' || s[i] == 'E') && !(s[i] == '.' && !hasDot)
    ensures var e := NumberEnd(s, i, hasDot, false);
            && Occurrences(s[i + 1..e], '.') <= (if hasDot then 0 else 1)
            && Occurrences(s[i + 1..e], 'e') + Occurrences(s[i + 1..e], 'E') == 0
            && (forall k :: i <= k < e ==> NumberCharAt(s, k))
    decreases |s| - i, 0
  {
    var e := NumberEnd(s, i, hasDot, false);
    if i + 1 < |s| && (s[i + 1] == '+' || s[i + 1] == '-') {
      NumberEndShape(s, i + 2, hasDot, true);
      OccurrencesStep(s, i + 1, e);
    } else {
      NumberEndShape(s, i + 1, hasDot, true);
    }
  }

  /** Counting a character in `s[i..e]` takes `s[i]` and then counts in `s[i + 1..e]`. */
  lemma OccurrencesStep(s: string, i: nat, e: nat)
    requires i < e <= |s|
    ensures forall c :: Occurrences(s[i..e], c) == (if s[i] == c then 1 else 0) + Occurrences(s[i + 1..e], c)
  {
    assert s[i..e][1..] == s[i + 1..e];
  }

  /**
   * A number starts at a digit, or at `-` followed by a digit; its lexeme holds
   * at most one `.` and at most one `e`/`E`, and a sign only at its start or
   * right after the `e`/`E`. A `-` without a digit after it is a one-character Unknown.
   */
  lemma NumberToken(s: string, i: nat)
    requires i < |s| && (IsAsciiDigit(s[i]) || s[i] == '-')
    ensures var r := ScanToken(s, i);
            if s[i] == '-' && !(i + 1 < |s| && IsAsciiDigit(s[i + 1])) then r == Scanned(Unknown, i + 1)
            else
              && r.end == NumberEnd(s, i + 1, false, false)
              && (r.ttype.Number? || r.ttype.Unknown?)
              && (r.ttype.Number? <==> ValidFloatLiteral(s[i..r.end]))
              && (r.ttype.Number? ==> r.ttype.lexeme == s[i..r.end])
              && Occurrences(s[i..r.end], '.') <= 1
              && Occurrences(s[i..r.end], 'e') + Occurrences(s[i..r.end], 'E') <= 1
              && (forall k :: i < k < r.end ==> NumberCharAt(s, k))
  {
    assert SingleCharToken(s[i]).None?;
    if !(s[i] == '-' && !(i + 1 < |s| && IsAsciiDigit(s[i + 1]))) {
      var e := NumberEnd(s, i + 1, false, false);
      NumberEndShape(s, i + 1, false, false);
      assert s[i..e][1..] == s[i + 1..e];
    }
  }

  /** The whole token stream of `s`. */
  function Lex(s: string): seq<Token>
  {
    LexFrom(s, 0)
  }

  /** The token types of a token stream. */
  function Types(ts: seq<Token>): (r: seq<TokenType>)
    ensures |r| == |ts| && forall k :: 0 <= k < |ts| ==> r[k] == ts[k].ttype
  {
    if ts == [] then [] else [ts[0].ttype] + Types(ts[1..])
  }

  /** A leading `.` is not part of a number: `.5` is a Dot and then the Number `5`. */
  lemma LeadingDotExample()
    ensures Types(Lex(".5")) == [Dot, Number("5"), Eof]
  {
    var s := ".5";
    assert ScanToken(s, 0) == Scanned(Dot, 1);
    DigitAfterDot();
    assert LexFrom(s, 2) == [TokenAt(s, 2)];
    assert LexFrom(s, 1) == [TokenAt(s, 1)] + LexFrom(s, 2);
  }

  /** The `5` of `.5` scans as the Number `5`. */
  lemma DigitAfterDot()
    ensures ScanToken(".5", 1) == Scanned(Number("5"), 2)
  {
    var s := ".5";
    assert NumberEnd(s, 2, false, false) == 2;
    assert s[1..2] == "5";
    assert ValidFloatLiteral("5") by {
      assert DigitPrefix("5") == 1;
      assert ExponentIndex("5") == 1;
    }
  }

  /** `:: ...` is a DoubleColon, whitespace, a Spread and Eof. */
  lemma OperatorsExample()
    ensures Types(Lex(":: ...")) == [DoubleColon, Whitespace, Spread, Eof]
  {
    var s := ":: ...";
    assert ScanToken(s, 0) == Scanned(DoubleColon, 2);
    assert WhitespaceEnd(s, 3) == 3;
    assert ScanToken(s, 2) == Scanned(Whitespace, 3);
    assert ScanToken(s, 3) == Scanned(Spread, 6);
    assert LexFrom(s, 6) == [TokenAt(s, 6)];
    assert LexFrom(s, 3) == [TokenAt(s, 3)] + LexFrom(s, 6);
    assert LexFrom(s, 2) == [TokenAt(s, 2)] + LexFrom(s, 3);
  }

  // ---------------------------------------------------------------------
  // The scanner
  // ---------------------------------------------------------------------

  class Lexer {
    /** The source text; `chars` in the source is this string read from `index`. */
    const input: string
    /** How many characters the iterator has yielded. */
    var index: nat
    /** The byte offset of the cursor. */
    var position: nat

    ghost predicate Valid()
      reads this
    {
      index <= |input| && position == ByteOffset(input, index)
    }

    constructor (input: string)
      ensures this.input == input && index == 0 && position == 0
      ensures Valid()
    {
      this.input := input;
      index := 0;
      position := 0;
    }

    /** The next character, without consuming it. */
    function Peek(): (c: Option<char>)
      reads this
      requires Valid()
      ensures c.Some? <==> index < |input|
      ensures c.Some? ==> c.value == input[index]
    {
      if index < |input| then Some(input[index]) else None
    }

    /** Consumes one character and moves the byte cursor by its UTF-8 size. */
    method Advance() returns (c: Option<char>)
      requires Valid()
      modifies this
      ensures Valid()
      ensures old(index) < |input| ==> c == Some(input[old(index)]) && index == old(index) + 1
      ensures old(index) == |input| ==> c == None && index == old(index)
      ensures position == old(position) + (if c.Some? then Utf8CharLen(c.value) else 0)
    {
      if index < |input| {
        c := Some(input[index]);
        position := position + Utf8CharLen(input[index]);
        index := index + 1;
      } else {
        c := None;
      }
    }

    method ReadWhitespace() returns (t: TokenType)
      requires Valid()
      modifies this
      ensures Valid()
      ensures t == Whitespace && index == WhitespaceEnd(input, old(index))
    {
      while true
        invariant Valid() && old(index) <= index
        invariant WhitespaceEnd(input, index) == WhitespaceEnd(input, old(index))
        decreases |input| - index
      {
        var c := Peek();
        if c.Some? && IsWhitespace(c.value) {
          c := Advance();
        } else {
          break;
        }
      }
      t := Whitespace;
    }

    /** Called at the second `/` of `//`: consumes it and the rest of the line, newline excluded. */
    method ReadComment() returns (t: TokenType)
      requires Valid()
      modifies this
      ensures Valid()
      ensures var k := if old(index) < |input| then old(index) + 1 else old(index);
              index == LineEnd(input, k) && t == Comment(Trim(input[k..index]))
    {
      var slash := Advance();
      var start := index;
      var commentText: string := [];
      while true
        invariant Valid() && start <= index
        invariant LineEnd(input, index) == LineEnd(input, start)
        invariant commentText == input[start..index]
        decreases |input| - index
      {
        var c := Peek();
        if c == None || c.value == '\n' {
          break;
        }
        ghost var j := index;
        c := Advance();
        commentText := commentText + [c.value];
        assert input[start..j + 1] == input[start..j] + [input[j]];
      }
      t := Comment(Trim(commentText));
    }

    /** Called just after the opening quote. */
    method ReadString() returns (t: TokenType)
      requires Valid()
      modifies this
      ensures Valid()
      ensures Scanned(t, index) == ScanString(input, old(index), [])
    {
      var value: string := [];
      while true
        invariant Valid() && old(index) <= index
        invariant ScanString(input, index, value) == ScanString(input, old(index), [])
        decreases |input| - index
      {
        var c := Peek();
        if c == Some('"') {
          c := Advance();
          return String(value);
        } else if c == Some('\\') {
          c := Advance();
          var escaped := Advance();
          if escaped == None {
            return Unknown;
          }
          value := value + Unescape(escaped.value);
        } else if c.Some? {
          value := value + [c.value];
          c := Advance();
        } else {
          return Unknown;
        }
      }
    }

    /** Called just after `firstChar`, the first character of the word. */
    method ReadIdentifier(firstChar: char) returns (t: TokenType)
      requires Valid()
      modifies this
      ensures Valid()
      ensures index == IdentEnd(input, old(index))
      ensures t == Keyword([firstChar] + input[old(index)..index])
    {
      var ident := [firstChar];
      while true
        invariant Valid() && old(index) <= index
        invariant IdentEnd(input, index) == IdentEnd(input, old(index))
        invariant ident == [firstChar] + input[old(index)..index]
        decreases |input| - index
      {
        var c := Peek();
        if c.Some? && IsIdentChar(c.value) {
          c := Advance();
          ident := ident + [c.value];
        } else {
          break;
        }
      }
      t := Keyword(ident);
    }

    /** Called just after `firstChar`, the digit or `-` that starts the number. */
    method ReadNumber(firstChar: char) returns (t: TokenType)
      requires Valid()
      modifies this
      ensures Valid()
      ensures index == NumberEnd(input, old(index), firstChar == '.', false)
      ensures var lexeme := [firstChar] + input[old(index)..index];
              t == if ValidFloatLiteral(lexeme) then Number(lexeme) else Unknown
    {
      var numberText := ReadNumberText(firstChar);
      if ValidFloatLiteral(numberText) {
        t := Number(numberText);
      } else {
        t := Unknown;
      }
    }

    /** The loop of `read_number`: the lexeme `firstChar` starts, up to where `NumberEnd` stops. */
    method ReadNumberText(firstChar: char) returns (numberText: string)
      requires Valid()
      modifies this
      ensures Valid()
      ensures index == NumberEnd(input, old(index), firstChar == '.', false)
      ensures numberText == [firstChar] + input[old(index)..index]
    {
      ghost var start := index;
      numberText := [firstChar];
      var hasDot := firstChar == '.';
      var hasExponent := false;
      while true
        invariant Valid() && start <= index
        invariant NumberEnd(input, index, hasDot, hasExponent) == NumberEnd(input, start, firstChar == '.', false)
        invariant numberText == [firstChar] + input[start..index]
        decreases |input| - index
      {
        ghost var j := index;
        var taken;
        taken, hasDot, hasExponent := ReadNumberStep(hasDot, hasExponent);
        if taken == [] {
          break;
        }
        ExtendLexeme([firstChar], input, start, j, index);
        numberText := numberText + taken;
      }
    }

    /**
     * One round of the loop of `read_number`: a digit, the first `.`, or the
     * first `e`/`E` together with a sign right after it is consumed; anything
     * else ends the number and nothing is consumed.
     */
    method ReadNumberStep(hasDot: bool, hasExponent: bool) returns (taken: string, hasDot': bool, hasExponent': bool)
      requires Valid()
      modifies this
      ensures Valid() && old(index) <= index && taken == input[old(index)..index]
      ensures taken == [] ==> NumberEnd(input, index, hasDot, hasExponent) == index
      ensures taken != [] ==> NumberEnd(input, index, hasDot', hasExponent') == NumberEnd(input, old(index), hasDot, hasExponent)
    {
      hasDot', hasExponent' := hasDot, hasExponent;
      var c := Peek();
      if c.None? {
        return [], hasDot', hasExponent';
      }
      var ch := c.value;
      if IsAsciiDigit(ch) {
      } else if ch == '.' && !hasDot {
        hasDot' := true;
      } else if (ch == 'e' || ch == 'E') && !hasExponent {
        NumberEndAtExponent(input, index, hasDot);
        hasExponent' := true;
      } else {
        return [], hasDot', hasExponent';
      }
      ghost var i := index;
      c := Advance();
      taken := [ch];
      assert taken == input[i..index];
      if hasExponent' && !hasExponent {
        var sign := ReadExponentSign();
        taken := taken + sign;
        assert input[i..index] == input[i..i + 1] + input[i + 1..index];
      }
    }

    /** The optional `+` or `-` right after a number's `e`/`E`. */
    method ReadExponentSign() returns (taken: string)
      requires Valid()
      modifies this
      ensures Valid() && old(index) <= index && taken == input[old(index)..index]
      ensures index == if old(index) < |input| && (input[old(index)] == '+' || input[old(index)] == '-')
                       then old(index) + 1 else old(index)
    {
      var sign := Peek();
      if sign == Some('+') || sign == Some('-') {
        sign := Advance();
        taken := [sign.value];
      } else {
        taken := [];
      }
    }

    /** The arms of `next_token` after the first character `c`, for every `c` that is not a one-character token. */
    method ScanRest(c: char) returns (ttype: TokenType)
      requires Valid() && 0 < index && input[index - 1] == c && SingleCharToken(c).None?
      modifies this
      ensures Valid()
      ensures Scanned(ttype, index) == ScanMultiChar(input, old(index) - 1)
    {
      if c == ':' || c == '.' || c == '/' {
        ttype := ScanPunctuationRest(c);
      } else {
        ttype := ScanLexemeRest(c);
      }
    }

    /** The `:`, `.` and `/` arms of `next_token`. */
    method ScanPunctuationRest(c: char) returns (ttype: TokenType)
      requires Valid() && 0 < index && input[index - 1] == c && (c == ':' || c == '.' || c == '/')
      modifies this
      ensures Valid()
      ensures Scanned(ttype, index) == ScanPunctuation(input, old(index) - 1)
    {
      var next: Option<char>;
      if c == ':' {
        if Peek() == Some(':') {
          next := Advance();
          ttype := DoubleColon;
        } else {
          ttype := Colon;
        }
      } else if c == '.' {
        if Peek() == Some('.') {
          next := Advance();
          if Peek() == Some('.') {
            next := Advance();
            ttype := Spread;
          } else {
            ttype := Unknown;
          }
        } else {
          ttype := Dot;
        }
      } else {
        if Peek() == Some('/') {
          ttype := ReadComment();
        } else {
          ttype := Unknown;
        }
      }
    }

    /** The arms of `next_token` that read on: strings, whitespace, identifiers, numbers. */
    method ScanLexemeRest(c: char) returns (ttype: TokenType)
      requires Valid() && 0 < index && input[index - 1] == c
      modifies this
      ensures Valid()
      ensures Scanned(ttype, index) == ScanLexeme(input, old(index) - 1)
    {
      ghost var i := index - 1;
      if c == '"' {
        ttype := ReadString();
      } else if IsWhitespace(c) {
        ttype := ReadWhitespace();
      } else if IsAsciiAlpha(c) || c == '_' {
        ttype := ReadIdentifier(c);
        HeadAndRest(input, i, index);
      } else if IsAsciiDigit(c) || (c == '-' && Peek().Some? && IsAsciiDigit(Peek().value)) {
        ttype := ReadNumber(c);
        HeadAndRest(input, i, index);
      } else {
        ttype := Unknown;
      }
    }

    /**
     * Scans one token. At the end of the input it returns an empty Eof token
     * at the input's byte length and changes nothing, however often it is called.
     */
    method NextToken() returns (t: Token)
      requires Valid()
      modifies this
      ensures Valid()
      ensures t == TokenAt(input, old(index)) && index == ScanToken(input, old(index)).end
      ensures t.posStart == old(position) && t.posEnd == position
      ensures old(index) == |input| ==> t == Token(Eof, position, position) && position == Utf8Length(input)
    {
      var startPos := position;
      ghost var i := index;
      var ttype: TokenType;
      var next := Advance();
      if next.Some? {
        var c := next.value;
        var single := SingleCharToken(c);
        if single.Some? {
          ttype := single.value;
        } else {
          ttype := ScanRest(c);
        }
      } else {
        ttype := Eof;
        ByteOffsetIsPrefixLength(input, index);
        assert input[..index] == input;
      }
      t := Token(ttype, startPos, position);
    }

    /** Scans to the end: every token up to and including the first Eof. */
    method Lex() returns (tokens: seq<Token>)
      requires Valid()
      modifies this
      ensures Valid() && index == |input|
      ensures tokens == LexFrom(input, old(index))
    {
      tokens := [];
      while true
        invariant Valid() && old(index) <= index
        invariant tokens + LexFrom(input, index) == LexFrom(input, old(index))
        decreases |input| - index
      {
        ghost var i := index;
        var token := NextToken();
        if token.ttype == Eof {
          assert LexFrom(input, i) == [token];
          tokens := tokens + [token];
          break;
        }
        LexFromStep(input, i);
        assert tokens + [token] + LexFrom(input, index) == tokens + LexFrom(input, i);
        tokens := tokens + [token];
      }
    }
  }
}

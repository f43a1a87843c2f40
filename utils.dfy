/**
 * Line and column of a position in a source text, for error reports. The
 * position counts characters, not bytes (the lexer's spans count bytes).
 */
module Utils {

  /** The number of line breaks in `s`. */
  function NewlineCount(s: string): nat
  {
    if s == [] then 0
    else NewlineCount(s[..|s| - 1]) + (if s[|s| - 1] == '\n' then 1 else 0)
  }

  /** The number of characters after the last line break of `s` (all of them when it has none). */
  function CharsSinceNewline(s: string): nat
  {
    if s == [] then 0
    else if s[|s| - 1] == '\n' then 0
    else CharsSinceNewline(s[..|s| - 1]) + 1
  }

  /** The characters before `position`, or the whole text when it is shorter. */
  function Before(source: string, position: nat): string
  {
    if position <= |source| then source[..position] else source
  }

  /** The 1-based line and column of `position`. */
  function LineAndColumn(source: string, position: nat): (nat, nat)
  {
    var before := Before(source, position);
    (1 + NewlineCount(before), 1 + CharsSinceNewline(before))
  }

  /**
   * `get_line_and_column`: walk the characters, counting line breaks and
   * restarting the column after each, and stop at `position`.
   */
  method GetLineAndColumn(source: string, position: nat) returns (line: nat, column: nat)
    ensures (line, column) == LineAndColumn(source, position)
  {
    line, column := 1, 1;
    var i := 0;
    while i < |source|
      invariant i <= |source| && i <= position
      invariant line == 1 + NewlineCount(source[..i]) && column == 1 + CharsSinceNewline(source[..i])
    {
      if i == position {
        break;
      }
      assert source[..i + 1][..i] == source[..i];
      if source[i] == '\n' {
        line, column := line + 1, 1;
      } else {
        column := column + 1;
      }
      i := i + 1;
    }
    assert source[..|source|] == source;
  }

  // ---------------------------------------------------------------------
  // Properties
  // ---------------------------------------------------------------------

  /** Position 0 is line 1, column 1. */
  lemma StartIsOneOne(source: string)
    ensures LineAndColumn(source, 0) == (1, 1)
  {
    assert Before(source, 0) == [];
  }

  /** Every position at or past the end has the coordinates just after the last character. */
  lemma PastEndIsEnd(source: string, position: nat)
    requires position >= |source|
    ensures LineAndColumn(source, position) == LineAndColumn(source, |source|)
  {
    assert source[..|source|] == source;
  }

  /** The line count is the number of line-break characters, however they are arranged. */
  lemma {:induction false} NewlineCountIsMultiplicity(s: string)
    ensures NewlineCount(s) == multiset(s)['\n']
    decreases |s|
  {
    if s != [] {
      var init := s[..|s| - 1];
      assert s == init + [s[|s| - 1]];
      NewlineCountIsMultiplicity(init);
    }
  }

  /** Text after the last line break: the column counts exactly its characters. */
  lemma {:induction false} ColumnAfterLastNewline(a: string, b: string)
    requires '\n' !in b
    ensures CharsSinceNewline(a + ['\n'] + b) == |b|
    ensures CharsSinceNewline(b) == |b|
    decreases |b|
  {
    var s := a + ['\n'] + b;
    if b == [] {
      assert s[|s| - 1] == '\n';
    } else {
      var init := b[..|b| - 1];
      assert s[..|s| - 1] == a + ['\n'] + init;
      assert b[..|b| - 1] == init;
      assert b[|b| - 1] in b;
      ColumnAfterLastNewline(a, init);
    }
  }
}

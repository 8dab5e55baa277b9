/** Character classes and the small helpers of lexer/utils.go. */
module Utils {

  /** minInt: the smaller of two integers. */
  function MinInt(a: int, b: int): (r: int)
    ensures r <= a && r <= b
    ensures r == a || r == b
  {
    if a > b then b else a
  }

  /**
   * isWhiteSpace: the RE2 class `\s`, which is exactly tab, newline,
   * form feed, carriage return and space. Vertical tab and every
   * non-ASCII code point are outside it.
   */
  predicate IsWhiteSpace(c: char)
  {
    c == '\t' || c == '\n' || c == '\U{C}' || c == '\r' || c == ' '
  }

  /** The `alphanumeric` class `[A-Za-z0-9]` used by the text scanner. */
  predicate IsAlphanumeric(c: char)
  {
    ('A' <= c <= 'Z') || ('a' <= c <= 'z') || ('0' <= c <= '9')
  }

  /** The RE2 `\s` class contains no vertical tab and nothing beyond ASCII. */
  lemma WhiteSpaceIsAsciiOnly(c: char)
    requires IsWhiteSpace(c)
    ensures c != '\U{B}' && (c as int) < 128
    ensures !IsAlphanumeric(c) && c != '<' && c != '>' && c != '/' && c != '=' && c != '\'' && c != '"'
  {
  }

  /** The cases checked by lexer/utils_test.go. */
  lemma WhiteSpaceExamples()
    ensures IsWhiteSpace(' ') && IsWhiteSpace('\n') && !IsWhiteSpace('x')
  {
  }
}

/** How names, numerals, blanks and comments are written, character by character. */
module Spellings {

  const DIGITS := "0123456789"
  const CAPITALS := "ABCDEFGHIJKLMNOPQRSTUVWXYZ"
  const SMALL := "abcdefghijklmnopqrstuvwxyz"

  predicate IsLetter(c: char) {
    c in CAPITALS || c in SMALL || c == '_'
  }

  // ----- Names -----

  const RESERVED: set<string> :=
    {"function", "return", "if", "else", "while", "for", "break", "continue", "let", "const",
     "true", "false", "NaN", "Infinity"}

  /** Letters, underscores and digits, no digit first, and no reserved word. */
  predicate IsName(t: string) {
    t != "" && IsLetter(t[0]) && (forall i | 0 <= i < |t| :: IsLetter(t[i]) || t[i] in DIGITS) && t !in RESERVED
  }

  // ----- Numerals -----

  predicate AreDigits(t: string) {
    t != "" && forall i | 0 <= i < |t| :: t[i] in DIGITS
  }

  predicate IsFraction(t: string) {
    t != "" && t[0] == '.' && AreDigits(t[1..])
  }

  predicate IsExponent(t: string) {
    |t| > 1 && (t[0] == 'e' || t[0] == 'E') && AreDigits(if t[1] == '+' || t[1] == '-' then t[2..] else t[1..])
  }

  /** Digits, and perhaps a fraction, and perhaps an exponent. */
  predicate IsNumeral(t: string) {
    exists a, b | 0 <= a <= b <= |t| :: IsNumeralAt(t, a, b)
  }

  predicate IsNumeralAt(t: string, a: nat, b: nat)
    requires a <= b <= |t|
  {
    AreDigits(t[..a]) && (a == b || IsFraction(t[a..b])) && (b == |t| || IsExponent(t[b..]))
  }

  // ----- Blanks and comments -----

  const BLANKS := "\t\n\U{b}\U{c}\r \U{a0}\U{1680}\U{2000}\U{2001}\U{2002}\U{2003}\U{2004}\U{2005}\U{2006}\U{2007}" +
                  "\U{2008}\U{2009}\U{200a}\U{2028}\U{2029}\U{202f}\U{205f}\U{3000}\U{feff}"

  /** Text that a block comment can hold. */
  predicate HasNoEnd(t: string) {
    forall i | 0 <= i < |t| - 1 :: !(t[i] == '*' && t[i + 1] == '/')
  }

  /** Text that a line comment can hold. */
  predicate IsOneLine(t: string) {
    '\n' !in t && '\r' !in t
  }

  predicate IsBlockComment(g: string) {
    |g| >= 4 && g == "/*" + g[2..|g| - 2] + "*/" && HasNoEnd(g[2..|g| - 2])
  }

  /** A line comment, with the end of its line. */
  predicate IsLineComment(g: string) {
    |g| >= 3 && g[..2] == "//" && IsOneLine(g[2..|g| - 1]) && (g[|g| - 1] == '\n' || g[|g| - 1] == '\r')
  }

  /** Blanks and comments. */
  predicate IsFiller(g: string)
    decreases |g|
  {
    g == "" ||
    (g[0] in BLANKS && IsFiller(g[1..])) ||
    exists n | 0 < n <= |g| :: (IsBlockComment(g[..n]) || IsLineComment(g[..n])) && IsFiller(g[n..])
  }
}

/** The stateful scanner: rules tried in order, a stack of start conditions, and line and column
    tracking.  Rule numbers, conditions and token numbers are the original's.
 */
module Lexer {
  import opened Options
  import opened Characters
  import opened LRParser

  // ----- Character classes -----

  /** What `.` does not match. */
  predicate IsLineEnd(c: char) {
    c == '\n' || c == '\r' || IsSeparator(c)
  }

  predicate IsSeparator(c: char) {
    c == '\U{2028}' || c == '\U{2029}'
  }

  /** What `\s` matches. */
  predicate IsSpace(c: char) {
    '\U{9}' <= c <= '\r' || c == ' ' || c == '\U{a0}' || c == '\U{1680}' || '\U{2000}' <= c <= '\U{200a}' ||
    IsSeparator(c) || c == '\U{202f}' || c == '\U{205f}' || c == '\U{3000}' || c == '\U{feff}'
  }

  // ----- Rules -----

  /** The length of the longest prefix whose characters satisfy `p`. */
  function RunLength(p: char -> bool, s: string): (n: nat)
    ensures n <= |s| && (n < |s| ==> !p(s[n]))
    ensures forall i | 0 <= i < n :: p(s[i])
  {
    if s == "" || !p(s[0]) then 0
    else
      var n := 1 + RunLength(p, s[1..]);
      assert forall i | 1 <= i < n :: s[i] == s[1..][i - 1];
      n
  }

  predicate StartsWith(t: string, s: string) {
    |t| <= |s| && t == s[..|t|]
  }

  function Literal(t: string, s: string): (n: Option<nat>)
    ensures n.Some? ==> n.value == |t| <= |s| && s[..|t|] == t
  {
    if StartsWith(t, s) then Some(|t|) else None
  }

  /** Whether a word character cannot follow: the boundary after a word of length `n`. */
  predicate Boundary(s: string, n: nat) {
    n >= |s| || !IsWord(s[n])
  }

  function Keyword(t: string, s: string): (n: Option<nat>)
    ensures n.Some? ==> n.value == |t| <= |s| && s[..|t|] == t
  {
    if StartsWith(t, s) && Boundary(s, |t|) then Some(|t|) else None
  }

  function OneOrMore(p: char -> bool, s: string): Option<nat> {
    var n := RunLength(p, s);
    if n > 0 then Some(n) else None
  }

  function LineComment(s: string): Option<nat> {
    if StartsWith("//", s) then Some(2 + RunLength(c => c != '\n' && c != '\r', s[2..])) else None
  }

  /** The index just after the first "*" "/" at or after `i`. */
  function CommentEnd(s: string, i: nat): (r: Option<nat>)
    ensures r.Some? ==> i + 2 <= r.value <= |s| && s[r.value - 1] == '/'
    decreases |s| - i
  {
    if i + 2 > |s| then None
    else if s[i] == '*' && s[i + 1] == '/' then Some(i + 2)
    else CommentEnd(s, i + 1)
  }

  function BlockComment(s: string): Option<nat> {
    if StartsWith("/*", s) then CommentEnd(s, 2) else None
  }

  function Identifier(s: string): Option<nat> {
    if s != "" && IsLetterOrUnderscore(s[0]) then Some(RunLength(IsWord, s)) else None
  }

  function Digits(s: string, i: nat): (n: nat)
    requires i <= |s|
    ensures i + n <= |s| && (n > 0 ==> IsDigit(s[i + n - 1]))
  {
    RunLength(IsDigit, s[i..])
  }

  /** Where an exponent starting at `i` ends, or `i` when there is none. */
  function AfterExponent(s: string, i: nat): (j: nat)
    requires i <= |s|
    ensures i <= j <= |s| && (i < j ==> IsDigit(s[j - 1]))
  {
    if i < |s| && (s[i] == 'e' || s[i] == 'E') then
      var k := if i + 1 < |s| && (s[i + 1] == '+' || s[i + 1] == '-') then i + 2 else i + 1;
      if Digits(s, k) > 0 then k + Digits(s, k) else i
    else i
  }

  function AfterFraction(s: string, i: nat): (j: nat)
    requires i <= |s|
    ensures i <= j <= |s| && (i < j ==> IsDigit(s[j - 1]))
  {
    if i < |s| && s[i] == '.' && Digits(s, i + 1) > 0 then i + 1 + Digits(s, i + 1) else i
  }

  /** Digits, then a fraction and an exponent if the word boundary allows: the alternatives in the
      order a backtracking matcher tries them. */
  function FloatNumber(s: string): Option<nat> {
    var n := Digits(s, 0);
    var f := AfterFraction(s, n);
    if n == 0 then None
    else if Boundary(s, AfterExponent(s, f)) then Some(AfterExponent(s, f))
    else if Boundary(s, f) then Some(f)
    else if Boundary(s, AfterExponent(s, n)) then Some(AfterExponent(s, n))
    else if Boundary(s, n) then Some(n)
    else None
  }

  function IntNumber(s: string): Option<nat> {
    var n := Digits(s, 0);
    if n > 0 && Boundary(s, n) then Some(n) else None
  }

  /** Any character, but of the line ends only a line feed or a carriage return with its line feed. */
  function Escaped(s: string): Option<nat> {
    if s == "" then None
    else if !IsLineEnd(s[0]) then Some(1)
    else if StartsWith("\r\n", s) then Some(2)
    else Literal("\n", s)
  }

  function AnyCharacter(s: string): Option<nat> {
    if s != "" && !IsLineEnd(s[0]) then Some(1) else None
  }

  /** The length of rule `r`'s match at the start of `s`. */
  function Match(r: nat, s: string): Option<nat> {
    if r == 0 then LineComment(s)
    else if r == 1 then BlockComment(s)
    else if r == 2 then OneOrMore(IsSpace, s)
    else if r == 3 then Keyword("function", s)
    else if r == 4 then Keyword("return", s)
    else if r == 5 then Keyword("if", s)
    else if r == 6 then Keyword("else", s)
    else if r == 7 then Keyword("while", s)
    else if r == 8 then Keyword("for", s)
    else if r == 9 then Keyword("break", s)
    else if r == 10 then Keyword("continue", s)
    else if r == 11 then Keyword("let", s)
    else if r == 12 then Keyword("const", s)
    else if r == 13 then Literal("===", s)
    else if r == 14 then Literal("=>", s)
    else if r == 15 then Literal("=", s)
    else if r == 16 then Literal("{", s)
    else if r == 17 then Literal("}", s)
    else if r == 18 then Literal(";", s)
    else if r == 19 then Literal(",", s)
    else if r == 20 then Keyword("true", s)
    else if r == 21 then Keyword("false", s)
    else if r == 22 then Keyword("NaN", s)
    else if r == 23 then Keyword("Infinity", s)
    else if r == 24 then Literal("[]", s)
    else if r == 25 then Literal("[", s)
    else if r == 26 then Literal("]", s)
    else if r == 27 then Literal(".", s)
    else if r == 28 then Literal("\"\"", s)
    else if r == 29 then Literal("''", s)
    else if r == 30 || r == 33 then Literal("\"", s)
    else if r == 31 || r == 34 then Literal("'", s)
    else if r == 32 then Literal("\\", s)
    else if r == 35 then Escaped(s)
    else if r == 36 then Some(RunLength(c => c != '\"' && c != '\\', s))
    else if r == 37 then Some(RunLength(c => c != '\'' && c != '\\', s))
    else if r == 38 then Identifier(s)
    else if r == 39 then FloatNumber(s)
    else if r == 40 then IntNumber(s)
    else if r == 41 then Literal("+", s)
    else if r == 42 then Literal("-", s)
    else if r == 43 then Literal("*", s)
    else if r == 44 then Literal("/", s)
    else if r == 45 then Literal("%", s)
    else if r == 46 then Literal("!==", s)
    else if r == 47 then Literal("<=", s)
    else if r == 48 then Literal(">=", s)
    else if r == 49 then Literal("<", s)
    else if r == 50 then Literal(">", s)
    else if r == 51 then Literal("!", s)
    else if r == 52 then Literal("&&", s)
    else if r == 53 then Literal("||", s)
    else if r == 54 then Literal("(", s)
    else if r == 55 then Literal(")", s)
    else if r == 56 then Literal("?", s)
    else if r == 57 then Literal(":", s)
    else if r == 58 then (if s == "" then Some(0) else None)
    else if r == 59 then AnyCharacter(s)
    else None
  }

  const INVALID: nat := 1000  // the original answers the string 'INVALID', which is no symbol

  /** The token a rule yields, if any. */
  function TokenOf(r: nat): Option<nat> {
    if r <= 2 || 30 <= r <= 34 then None
    else if r == 3 then Some(11)
    else if r == 4 then Some(22)
    else if 5 <= r <= 6 then Some(r + 23)
    else if 7 <= r <= 8 then Some(r + 23)
    else if 9 <= r <= 10 then Some(r + 14)
    else if r == 11 then Some(25)
    else if r == 12 then Some(27)
    else if r == 13 then Some(42)
    else if r == 14 then Some(48)
    else if r == 15 then Some(26)
    else if r == 16 then Some(16)
    else if r == 17 then Some(17)
    else if r == 18 then Some(6)
    else if r == 19 then Some(69)
    else if 20 <= r <= 23 then Some(r + 39)
    else if r == 24 then Some(64)
    else if 25 <= r <= 27 then Some(r + 24)
    else if r == 28 || r == 29 then Some(65)
    else if r == 35 then Some(67)
    else if r == 36 || r == 37 then Some(66)
    else if r == 38 then Some(73)
    else if r == 39 || r == 40 then Some(r + 18)
    else if 41 <= r <= 45 then Some(r - 7)
    else if r == 46 then Some(43)
    else if r == 47 then Some(47)
    else if r == 48 then Some(46)
    else if r == 49 then Some(45)
    else if r == 50 then Some(44)
    else if r == 51 then Some(39)
    else if r == 52 || r == 53 then Some(r - 12)
    else if r == 54 then Some(13)
    else if r == 55 then Some(15)
    else if r == 56 || r == 57 then Some(r - 1)
    else if r == 58 then Some(5)
    else Some(INVALID)
  }

  // ----- State -----

  datatype Condition = Initial | DoubleQuoted | SingleQuoted | QuotedEscape

  function Rules(c: Condition): seq<nat> {
    match c
    case QuotedEscape => [35]
    case SingleQuoted => [32, 34, 37]
    case DoubleQuoted => [32, 33, 36]
    case Initial => seq(54, i requires 0 <= i < 54 => if i < 32 then i else i + 6)  // 0 to 31 and 38 to 59
  }

  datatype State = State(input: string, matched: string, text: string, line: nat, place: Loc,
                         conditions: seq<Condition>, done: bool)

  function Init(source: string): State {
    State(source, "", "", 0, Loc(1, 1, 0, 0), [Initial], false)
  }

  function Current(l: State): Condition {
    if l.conditions == [] then Initial else l.conditions[|l.conditions| - 1]
  }

  /** The first of `rules`, from index `i` on, that matches. */
  function FirstMatch(rules: seq<nat>, s: string, i: nat := 0): Option<nat>
    decreases |rules| - i
  {
    if i >= |rules| then None
    else if Match(rules[i], s).Some? then Some(rules[i])
    else FirstMatch(rules, s, i + 1)
  }

  /** The condition stack after rule `r`; the bottom condition is never popped. */
  function AfterRule(r: nat, conditions: seq<Condition>): seq<Condition> {
    if r == 30 then conditions + [DoubleQuoted]
    else if r == 31 then conditions + [SingleQuoted]
    else if r == 32 then conditions + [QuotedEscape]
    else if 33 <= r <= 35 && |conditions| > 1 then conditions[..|conditions| - 1]
    else conditions
  }

  /** Line terminators, a carriage return and its line feed counted once. */
  function Lines(s: string): nat {
    if s == "" then 0
    else if s[0] == '\r' && |s| > 1 && s[1] == '\n' then 1 + Lines(s[2..])
    else (if s[0] == '\n' || s[0] == '\r' then 1 else 0) + Lines(s[1..])
  }

  /** What follows the last line terminator. */
  function LastLine(s: string): string {
    if s == "" then ""
    else if s[|s| - 1] == '\n' || s[|s| - 1] == '\r' then ""
    else LastLine(s[..|s| - 1]) + [s[|s| - 1]]
  }

  /** The column after a match: the length of the last line piece, which a separator cuts short. */
  function ColumnAfter(m: string, column: nat): nat {
    if Lines(m) == 0 then column + |m| else RunLength(c => !IsLineEnd(c), LastLine(m))
  }

  function Consume(l: State, r: nat, n: nat): State
    requires n <= |l.input|
  {
    var m := l.input[..n];
    var line := l.line + Lines(m);
    State(l.input[n..], l.matched + m, m, line,
          Loc(l.place.lastLine, line + 1, l.place.lastColumn, ColumnAfter(m, l.place.lastColumn)),
          AfterRule(r, l.conditions), l.input == "")
  }

  datatype Answer = Kind(kind: nat) | Nothing | LexicalError

  lemma MatchFits(r: nat, s: string)
    ensures Match(r, s).Some? ==> Match(r, s).value <= |s|
  {
    hide RunLength, CommentEnd, Literal, Keyword, Digits, AfterExponent, AfterFraction, Boundary;
  }

  /** One attempt: END once done; else the first rule of the current condition that matches, which
      yields a token or nothing. */
  function Next(l: State): (Answer, State) {
    if l.done then (Kind(END), l)
    else
      match FirstMatch(Rules(Current(l)), l.input)
      case Some(r) =>
        if Match(r, l.input).Some? then
          MatchFits(r, l.input);
          var l' := Consume(l, r, Match(r, l.input).value);
          (match TokenOf(r) case Some(k) => Kind(k) case None => Nothing, l')
        else (LexicalError, l)
      case None =>
        if l.input == "" then (Kind(END), l.(text := "", done := true)) else (LexicalError, l.(text := ""))
  }
}

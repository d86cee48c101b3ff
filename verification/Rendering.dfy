/** Words written out are scanned back one by one, whatever blanks and comments stand between them, and where
    nothing does if they do not run together.
 */
module Rendering {
  import opened Options
  import opened Characters
  import opened Spellings
  import opened LRParser
  import opened Lexer
  import opened LexerRuns
  import opened StringLiterals

  // ----- Between words -----

  /** What is written without a gap: a word, or a string in quotes, of which the scanner makes several. */
  datatype Lexeme = Single(word: Word) | Quoted(quote: char, string: string)

  function TextIn(x: Lexeme): string {
    match x
    case Single(w) => w.text
    case Quoted(q, s) => LiteralText(q, s)
  }

  function WordsIn(x: Lexeme): seq<Word> {
    match x
    case Single(w) => [w]
    case Quoted(q, s) => LiteralWords(q, s)
  }

  function Words(xs: seq<Lexeme>): seq<Word> {
    if xs == [] then [] else WordsIn(xs[0]) + Words(xs[1..])
  }

  function Singles(ws: seq<Word>): seq<Lexeme> {
    seq(|ws|, i requires 0 <= i < |ws| => Single(ws[i]))
  }

  lemma {:induction false} SinglesAreWords(ws: seq<Word>)
    ensures Words(Singles(ws)) == ws
    ensures (forall w | w in ws :: IsWordOf(w)) ==> forall x | x in Singles(ws) :: IsLexeme(x)
  {
    hide IsWordOf;
    if ws != [] {
      assert Singles(ws)[1..] == Singles(ws[1..]);
      SinglesAreWords(ws[1..]);
    }
  }

  lemma {:induction false} WordsSplit(xs: seq<Lexeme>, ys: seq<Lexeme>)
    ensures Words(xs + ys) == Words(xs) + Words(ys)
  {
    if xs == [] {
      assert xs + ys == ys;
    } else {
      assert (xs + ys)[1..] == xs[1..] + ys;
      WordsSplit(xs[1..], ys);
    }
  }

  /** Characters that may stand directly behind a word of each kind without becoming part of it. */
  predicate MayFollow(k: nat, c: char) {
    if k == 73 || IsKeyword(k) then !IsWord(c)
    else if k == 57 then !IsWord(c) && c != '.'
    else if k == 37 then c != '/' && c != '*'
    else if k == 39 || k == 44 || k == 45 then c != '='
    else if k == 26 then c != '=' && c != '>'
    else if k == 49 then c != ']'
    else true
  }

  /** Lexemes, each with a filler behind it. */
  function Rendered(xs: seq<Lexeme>, gaps: seq<string>): string
    requires |gaps| == |xs|
  {
    if xs == [] then "" else TextIn(xs[0]) + (gaps[0] + Rendered(xs[1..], gaps[1..]))
  }

  /** Fillers, and no two lexemes run together. */
  predicate AreApart(xs: seq<Lexeme>, gaps: seq<string>)
    requires |gaps| == |xs|
  {
    xs != [] ==>
      IsFiller(gaps[0]) && AreApart(xs[1..], gaps[1..]) &&
      var tail := gaps[0] + Rendered(xs[1..], gaps[1..]);
      tail != "" && xs[0].Single? ==> MayFollow(xs[0].word.kind, tail[0])
  }

  /** One space behind each lexeme always does. */
  lemma {:induction false} SpacesKeepApart(xs: seq<Lexeme>)
    ensures AreApart(xs, seq(|xs|, i => " "))
  {
    var gaps := seq(|xs|, i => " ");
    assert " "[0] in BLANKS && IsFiller(" "[1..]);
    if xs != [] {
      assert gaps[1..] == seq(|xs| - 1, i => " ");
      SpacesKeepApart(xs[1..]);
    }
  }

  /** The rule and the spelling of a word that is spelled in one way only; rule numbers order the alternatives. */
  function SymbolRule(k: nat): Option<(nat, string)> {
    if IsKeyword(k) then Some((KeywordRule(k), KeywordOf(KeywordRule(k)))) else MarkRule(k)
  }

  function MarkRule(k: nat): Option<(nat, string)> {
    if k == 34 then Some((41, "+")) else if k == 35 then Some((42, "-")) else if k == 36 then Some((43, "*"))
    else if k == 37 then Some((44, "/")) else if k == 38 then Some((45, "%")) else if k == 39 then Some((51, "!"))
    else if k == 40 then Some((52, "&&")) else if k == 41 then Some((53, "||")) else if k == 42 then Some((13, "==="))
    else if k == 43 then Some((46, "!==")) else if k == 44 then Some((50, ">")) else if k == 45 then Some((49, "<"))
    else if k == 46 then Some((48, ">=")) else if k == 47 then Some((47, "<=")) else if k == 55 then Some((56, "?"))
    else if k == 56 then Some((57, ":")) else if k == 13 then Some((54, "(")) else if k == 15 then Some((55, ")"))
    else if k == 6 then Some((18, ";")) else if k == 48 then Some((14, "=>")) else if k == 26 then Some((15, "="))
    else if k == 16 then Some((16, "{")) else if k == 17 then Some((17, "}")) else if k == 69 then Some((19, ","))
    else if k == 64 then Some((24, "[]")) else if k == 49 then Some((25, "[")) else if k == 50 then Some((26, "]"))
    else if k == 51 then Some((27, "."))
    else None
  }

  predicate IsKeyword(k: nat) {
    k == 11 || 22 <= k <= 25 || 27 <= k <= 31 || 59 <= k <= 62
  }

  function KeywordRule(k: nat): nat
    requires IsKeyword(k)
  {
    if k == 11 then 3
    else if k == 22 then 4
    else if k <= 24 then k - 14
    else if k == 25 then 11
    else if k == 27 then 12
    else if k <= 31 then k - 23
    else k - 39
  }

  predicate IsWordOf(w: Word) {
    if w.kind == 73 then IsName(w.text)
    else if w.kind == 57 then IsNumeral(w.text)
    else SymbolRule(w.kind).Some? && SymbolRule(w.kind).value.1 == w.text
  }

  predicate IsLexeme(x: Lexeme) {
    match x
    case Single(w) => IsWordOf(w)
    case Quoted(q, _) => IsQuote(q)
  }

  // ----- The scanner's classes of characters -----

  lemma DigitIff(c: char)
    ensures IsDigit(c) <==> c in DIGITS
  {
    if IsDigit(c) { assert DIGITS[(c - '0') as int] == c; }
  }

  lemma LetterIff(c: char)
    ensures IsLetterOrUnderscore(c) <==> IsLetter(c)
  {
    CapitalIff(c);
    SmallIff(c);
    hide CAPITALS, SMALL;
  }

  lemma CapitalIff(c: char)
    ensures 'A' <= c <= 'Z' <==> c in CAPITALS
  {
    if 'A' <= c <= 'Z' { assert CAPITALS[(c - 'A') as int] == c; }
  }

  lemma SmallIff(c: char)
    ensures 'a' <= c <= 'z' <==> c in SMALL
  {
    if 'a' <= c <= 'z' { assert SMALL[(c - 'a') as int] == c; }
  }

  lemma BlankIff(c: char)
    ensures IsSpace(c) <==> c in BLANKS
  {
    if '\t' <= c <= '\r' {
      assert BLANKS[(c - '\t') as int] == c;
    } else if '\U{2000}' <= c <= '\U{200a}' {
      assert BLANKS[8 + (c - '\U{2000}') as int] == c;
    }
  }

  /** Rule 38 takes all of a name, and of no other text but a reserved word. */
  lemma NameIff(t: string)
    ensures IsName(t) <==> Identifier(t) == Some(|t|) && t !in RESERVED
  {
    hide RunLength, IsLetterOrUnderscore, IsLetter, IsDigit, DIGITS, RESERVED;
    forall i | 0 <= i < |t| ensures IsWord(t[i]) <==> IsLetter(t[i]) || t[i] in DIGITS {
      LetterIff(t[i]);
      DigitIff(t[i]);
    }
    if t != "" { LetterIff(t[0]); }
  }

  lemma DigitsAre(t: string, i: nat, n: nat)
    requires i + n <= |t| && AreDigitsIn(t, i, i + n) && (i + n < |t| ==> !IsDigit(t[i + n]))
    ensures Digits(t, i) == n
  {
    hide IsDigit;
    forall j | 0 <= j < n ensures IsDigit(t[i..][j]) { assert IsDigit(t[i + j]); }
    RunIs(IsDigit, t[i..], n);
  }

  predicate AreDigitsIn(t: string, i: nat, j: nat)
    requires i <= j <= |t|
  {
    forall m | i <= m < j :: IsDigit(t[m])
  }

  lemma PartIsDigits(t: string, i: nat, j: nat)
    requires i <= j <= |t|
    ensures AreDigits(t[i..j]) <==> i < j && AreDigitsIn(t, i, j)
  {
    hide IsDigit, DIGITS;
    forall m | i <= m < j ensures IsDigit(t[m]) <==> t[i..j][m - i] in DIGITS { DigitIff(t[m]); }
    if i < j && AreDigitsIn(t, i, j) {
      forall m | 0 <= m < j - i ensures t[i..j][m] in DIGITS { assert IsDigit(t[i + m]); }
    }
  }

  lemma DigitsPart(t: string, i: nat)
    requires i <= |t|
    ensures Digits(t, i) > 0 ==> AreDigits(t[i..i + Digits(t, i)])
  {
    var n := Digits(t, i);
    forall m | i <= m < i + n ensures IsDigit(t[m]) { assert t[m] == t[i..][m - i]; }
    hide IsDigit, Digits;
    PartIsDigits(t, i, i + n);
  }

  lemma FloatIff(t: string)
    ensures FloatNumber(t) == Some(|t|) <==>
            Digits(t, 0) > 0 && AfterExponent(t, AfterFraction(t, Digits(t, 0))) == |t|
  {
    hide Digits;
  }

  /** Rule 39 takes all of a numeral, and of no other text. */
  lemma NumeralIff(t: string)
    ensures IsNumeral(t) <==> FloatNumber(t) == Some(|t|)
  {
    hide IsNumeralAt, Digits, AfterExponent, AfterFraction, FloatNumber;
    FloatIff(t);
    if IsNumeral(t) {
      var a, b :| 0 <= a <= b <= |t| && IsNumeralAt(t, a, b);
      NumeralParts(t, a, b);
    }
    if FloatNumber(t) == Some(|t|) {
      PartsOfNumeral(t);
      assert IsNumeralAt(t, Digits(t, 0), AfterFraction(t, Digits(t, 0)));
    }
  }

  lemma NumeralParts(t: string, a: nat, b: nat)
    requires a <= b <= |t| && IsNumeralAt(t, a, b)
    ensures 0 < a == Digits(t, 0) && AfterFraction(t, a) == b && AfterExponent(t, b) == |t|
  {
    hide AreDigits, Digits;
    PartIsDigits(t, 0, a);
    assert t[0..a] == t[..a];
    if a < b { FractionPart(t, a, b); }
    if b < |t| {
      assert t[b] == t[b..][0];
      ExponentPart(t, b, ExponentDigits(t, b));
      hide IsExponent;
    }
    DigitsAre(t, 0, a);
  }

  /** Where the digits of an exponent that starts at `b` start. */
  function ExponentDigits(t: string, b: nat): nat {
    if b + 1 < |t| && (t[b + 1] == '+' || t[b + 1] == '-') then b + 2 else b + 1
  }

  lemma FractionPart(t: string, a: nat, b: nat)
    requires a < b <= |t| && IsFraction(t[a..b]) && (b < |t| ==> !IsDigit(t[b]))
    ensures AfterFraction(t, a) == b && t[a] == '.'
  {
    hide AreDigits, Digits;
    assert t[a..b][1..] == t[a + 1..b] && t[a..b][0] == t[a];
    PartIsDigits(t, a + 1, b);
    DigitsAre(t, a + 1, b - a - 1);
  }

  lemma ExponentPart(t: string, b: nat, k: nat)
    requires b < |t| && IsExponent(t[b..]) && k == ExponentDigits(t, b)
    ensures AfterExponent(t, b) == |t| && (t[b] == 'e' || t[b] == 'E')
  {
    hide AreDigits, Digits;
    var e := t[b..];
    assert e[1] == t[b + 1] && e[0] == t[b];
    assert t[k..|t|] == e[k - b..];
    PartIsDigits(t, k, |t|);
    DigitsAre(t, k, |t| - k);
  }

  lemma PartsOfNumeral(t: string)
    requires Digits(t, 0) > 0 && AfterExponent(t, AfterFraction(t, Digits(t, 0))) == |t|
    ensures IsNumeralAt(t, Digits(t, 0), AfterFraction(t, Digits(t, 0)))
  {
    hide AreDigits, Digits, AfterExponent, IsExponent;
    var a := Digits(t, 0);
    var b := AfterFraction(t, a);
    DigitsPart(t, 0);
    assert t[0..a] == t[..a];
    if a < b {
      DigitsPart(t, a + 1);
      assert t[a..b][1..] == t[a + 1..b];
    }
    if b < |t| { PartOfExponent(t, b); }
  }

  lemma PartOfExponent(t: string, b: nat)
    requires b < |t| && AfterExponent(t, b) == |t|
    ensures IsExponent(t[b..])
  {
    hide AreDigits, Digits;
    var e, k := t[b..], ExponentDigits(t, b);
    assert e[1] == t[b + 1];
    DigitsPart(t, k);
    assert t[k..|t|] == e[k - b..];
  }

  // ----- What rules can begin with -----

  function FirstOf(r: nat): char {
    if r == 3 || r == 8 || r == 21 then 'f' else if r == 4 then 'r' else if r == 5 then 'i' else if r == 6 then 'e'
    else if r == 7 then 'w' else if r == 9 then 'b' else if r == 10 || r == 12 then 'c' else if r == 11 then 'l'
    else if r == 13 || r == 14 || r == 15 then '=' else if r == 16 then '{' else if r == 17 then '}'
    else if r == 18 then ';'
    else if r == 19 then ',' else if r == 20 then 't' else if r == 22 then 'N' else if r == 23 then 'I'
    else if r == 24 || r == 25 then '[' else if r == 26 then ']' else if r == 27 then '.'
    else if r == 28 || r == 30 then '\"' else if r == 29 || r == 31 then '\''
    else if r == 41 then '+' else if r == 42 then '-' else if r == 43 then '*' else if r == 44 then '/'
    else if r == 45 then '%'
    else if r == 46 || r == 51 then '!' else if r == 47 || r == 49 then '<' else if r == 48 || r == 50 then '>'
    else if r == 52 then '&' else if r == 53 then '|' else if r == 54 then '(' else if r == 55 then ')'
    else if r == 56 then '?'
    else if r == 57 then ':' else '/'
  }

  predicate CanStart(r: nat, c: char) {
    if r == 2 then IsSpace(c)
    else if r == 38 then IsLetterOrUnderscore(c)
    else if r == 39 || r == 40 then IsDigit(c)
    else c == FirstOf(r)
  }

  predicate InInitial(r: nat) {
    r < 32 || 38 <= r < 58
  }

  lemma StartOfMatch(r: nat, s: string)
    requires s != "" && InInitial(r) && Match(r, s).Some?
    ensures CanStart(r, s[0])
  {
    hide CommentEnd, AfterExponent, AfterFraction, Boundary, IsSpace;
  }

  /** The second character a rule needs, of those that share their first with others. */
  function SecondOf(r: nat): Option<char> {
    if r == 0 then Some('/')
    else if r == 1 then Some('*')
    else if r == 13 || r == 46 || r == 47 || r == 48 then Some('=')
    else if r == 14 then Some('>')
    else if r == 24 then Some(']')
    else None
  }

  lemma SecondOfMatch(r: nat, s: string)
    requires Match(r, s).Some? && SecondOf(r).Some?
    ensures |s| > 1 && s[1] == SecondOf(r).value
  {
    hide CommentEnd, RunLength, AfterExponent, AfterFraction, Boundary, IsSpace;
    var t := if r == 0 then "//" else if r == 1 then "/*" else "";
    if r <= 1 { assert s[..2] == t && s[..2][1] == s[1]; }
    if r == 13 { assert s[..3][1] == s[1]; }
    if r == 46 { assert s[..3][1] == s[1]; }
    if r == 47 || r == 48 { assert s[..2][1] == s[1]; }
    if r == 14 || r == 24 { assert s[..2][1] == s[1]; }
  }

  // ----- One word -----

  /** On `s` the scanner, in its initial condition, uses rule `r` for `n` characters. */
  ghost predicate Uses(s: string, r: nat, n: nat) {
    n <= |s| && FirstMatch(Rules(Initial), s) == Some(r) && Match(r, s) == Some(n)
  }

  lemma UsesFirst(s: string, r: nat, n: nat)
    requires InInitial(r) && Match(r, s) == Some(n) && forall j: nat | j < r && InInitial(j) :: Match(j, s).None?
    ensures Uses(s, r, n)
  {
    MatchFits(r, s);
    hide Match, FirstMatch;
    var k := if r < 32 then r else r - 6;
    forall j | 0 <= j < k ensures Match(Rules(Initial)[j], s).None? {
      assert InInitial(Rules(Initial)[j]) && Rules(Initial)[j] < r;
    }
    FirstMatchIs(Rules(Initial), s, 0, k);
  }

  lemma MarkUses(k: nat, tail: string)
    requires MarkRule(k).Some? && (tail != "" ==> MayFollow(k, tail[0]))
    ensures var (r, t) := MarkRule(k).value; Uses(t + tail, r, |t|)
  {
    hide MayFollow, SecondOf, FirstMatch;
    var (r, t) := MarkRule(k).value;
    var s := t + tail;
    MarkMatches(k, s, tail);
    forall j: nat | j < r && InInitial(j) ensures Match(j, s).None? {
      if Match(j, s).Some? {
        hide Match;
        StartOfMatch(j, s);
        SharedStart(k, j);
        SecondOfMatch(j, s);
        NotSecond(k, j, if |t| > 1 then t[1] else tail[0]);
        assert false;
      }
    }
    hide Match;
    UsesFirst(s, r, |t|);
  }

  lemma MarkMatches(k: nat, s: string, tail: string)
    requires MarkRule(k).Some? && s == MarkRule(k).value.1 + tail && (tail != "" ==> MayFollow(k, tail[0]))
    ensures var (r, t) := MarkRule(k).value;
            t != "" && InInitial(r) && TokenOf(r) == Some(k) && Match(r, s) == Some(|t|)
  {
    var t := MarkRule(k).value.1;
    assert s[..|t|] == t;
  }

  /** An earlier rule that begins as a mark does needs a second character. */
  lemma SharedStart(k: nat, j: nat)
    requires MarkRule(k).Some? && j < MarkRule(k).value.0 && InInitial(j) && CanStart(j, MarkRule(k).value.1[0])
    ensures SecondOf(j).Some?
  {
  }

  /** And that is not what stands there. */
  lemma NotSecond(k: nat, j: nat, second: char)
    requires MarkRule(k).Some? && j < MarkRule(k).value.0 && InInitial(j) && CanStart(j, MarkRule(k).value.1[0])
    requires var t := MarkRule(k).value.1; if |t| > 1 then second == t[1] else MayFollow(k, second)
    ensures SecondOf(j) != Some(second)
  {
  }

  // ----- Names and numerals -----

  lemma {:induction false} RunStopsAt(p: char -> bool, t: string, tail: string)
    requires tail != "" ==> !p(tail[0])
    ensures RunLength(p, t + tail) == RunLength(p, t)
  {
    var s := t + tail;
    if t == "" {
      assert s == tail;
    } else {
      assert s[0] == t[0] && s[1..] == t[1..] + tail;
      RunStopsAt(p, t[1..], tail);
    }
  }

  lemma NameUses(t: string, tail: string)
    requires IsName(t) && (tail != "" ==> !IsWord(tail[0]))
    ensures Uses(t + tail, 38, |t|)
  {
    var s := t + tail;
    NameIff(t);
    hide IsName, RESERVED;
    RunStopsAt(IsWord, t, tail);
    assert s[0] == t[0] && s[..|t|] == t;
    forall j: nat | j < 38 && InInitial(j) ensures Match(j, s).None? {
      if Match(j, s).Some? {
        StartOfMatch(j, s);
        LettersStartKeywords(j, s[0]);
        KeywordIsWhole(j, t, s);
        assert false;
      }
    }
    assert Match(38, s) == Some(|t|);
    hide Match;
    UsesFirst(s, 38, |t|);
  }

  function KeywordOf(r: nat): string {
    if r == 3 then "function" else if r == 4 then "return" else if r == 5 then "if" else if r == 6 then "else"
    else if r == 7 then "while" else if r == 8 then "for" else if r == 9 then "break" else if r == 10 then "continue"
    else if r == 11 then "let" else if r == 12 then "const" else if r == 20 then "true" else if r == 21 then "false"
    else if r == 22 then "NaN" else "Infinity"
  }

  lemma KeywordUses(k: nat, tail: string)
    requires IsKeyword(k) && (tail != "" ==> !IsWord(tail[0]))
    ensures var r := KeywordRule(k); Uses(KeywordOf(r) + tail, r, |KeywordOf(r)|)
  {
    hide FirstMatch, RunLength;
    var r := KeywordRule(k);
    var t := KeywordOf(r);
    var s := t + tail;
    KeywordIsWord(r, tail);
    forall j: nat | j < r && InInitial(j) ensures Match(j, s).None? {
      if Match(j, s).Some? {
        StartOfMatch(j, s);
        LettersStartKeywords(j, s[0]);
        KeywordIsWhole(j, t, s);
        KeywordsDiffer(j, r);
        assert false;
      }
    }
    hide Match;
    UsesFirst(s, r, |t|);
  }

  lemma KeywordIsWord(r: nat, tail: string)
    requires (3 <= r <= 12 || 20 <= r <= 23) && (tail != "" ==> !IsWord(tail[0]))
    ensures var t := KeywordOf(r);
            var s := t + tail;
            && t != "" && IsLetterOrUnderscore(s[0]) && s[..|t|] == t && RunLength(IsWord, s) == |t|
            && Match(r, s) == Some(|t|)
  {
    var t := KeywordOf(r);
    var s := t + tail;
    assert s[..|t|] == t && s[0] == t[0];
    forall i | 0 <= i < |t| ensures IsWord(s[i]) {
      assert s[i] == t[i];
      KeywordsAreWords(r, i);
    }
    hide RunLength, KeywordOf;
    RunIs(IsWord, s, |t|);
  }

  lemma KeywordsDiffer(j: nat, r: nat)
    requires (3 <= j <= 12 || 20 <= j <= 23) && (3 <= r <= 12 || 20 <= r <= 23) && j < r
    ensures KeywordOf(j) != KeywordOf(r)
  {
    assert |KeywordOf(j)| == |KeywordOf(r)| ==> KeywordOf(j)[0] != KeywordOf(r)[0];
  }

  lemma LettersStartKeywords(r: nat, c: char)
    requires r < 38 && InInitial(r) && CanStart(r, c) && IsLetterOrUnderscore(c)
    ensures 3 <= r <= 12 || 20 <= r <= 23
  {
  }

  lemma KeywordIsWhole(r: nat, t: string, s: string)
    requires 3 <= r <= 12 || 20 <= r <= 23
    requires RunLength(IsWord, s) == |t| <= |s| && s[..|t|] == t && Match(r, s).Some?
    ensures t in RESERVED && t == KeywordOf(r)
  {
    var w := KeywordOf(r);
    MatchOfKeyword(r, s);
    forall i | 0 <= i < |w| ensures IsWord(s[i]) {
      assert s[i] == s[..|w|][i];
      KeywordsAreWords(r, i);
    }
    RunIs(IsWord, s, |w|);
  }

  lemma MatchOfKeyword(r: nat, s: string)
    requires 3 <= r <= 12 || 20 <= r <= 23
    requires Match(r, s).Some?
    ensures var w := KeywordOf(r); w in RESERVED && |w| <= |s| && s[..|w|] == w && Boundary(s, |w|)
  {
  }

  lemma KeywordsAreWords(r: nat, i: nat)
    requires i < |KeywordOf(r)|
    ensures IsWord(KeywordOf(r)[i])
  {
  }

  /** What stands behind a numeral neither continues it nor keeps it from being one. */
  predicate EndsNumeral(tail: string) {
    tail != "" ==> !IsWord(tail[0]) && tail[0] != '.'
  }

  /** A numeral is scanned as on its own. */
  lemma FloatStopsAt(t: string, tail: string)
    requires IsNumeral(t) && EndsNumeral(tail)
    ensures FloatNumber(t + tail) == Some(|t|)
  {
    hide AfterFraction, AfterExponent, Boundary, IsNumeral;
    var s := t + tail;
    NumeralIff(t);
    NumeralEnds(t);
    DigitsStopAt(t, tail, 0);
    var n := Digits(t, 0);
    FractionStopsAt(t, tail, n);
    var f := AfterFraction(t, n);
    ExponentStopsAt(t, tail, f);
    ExponentStopsAt(t, tail, n);
    BoundaryStopsAt(t, tail, AfterExponent(t, f));
    BoundaryStopsAt(t, tail, f);
    BoundaryStopsAt(t, tail, AfterExponent(t, n));
    BoundaryStopsAt(t, tail, n);
  }

  lemma DigitsStopAt(t: string, tail: string, i: nat)
    requires i <= |t| && EndsNumeral(tail)
    ensures Digits(t + tail, i) == Digits(t, i)
  {
    assert (t + tail)[i..] == t[i..] + tail;
    RunStopsAt(IsDigit, t[i..], tail);
  }

  lemma FractionStopsAt(t: string, tail: string, i: nat)
    requires i <= |t| && EndsNumeral(tail)
    ensures AfterFraction(t + tail, i) == AfterFraction(t, i)
  {
    hide Digits;
    var s := t + tail;
    assert i < |s| ==> s[i] == if i < |t| then t[i] else tail[0];
    if i < |t| { DigitsStopAt(t, tail, i + 1); }
  }

  lemma ExponentStopsAt(t: string, tail: string, i: nat)
    requires i <= |t| && EndsNumeral(tail) && t != "" && IsDigit(t[|t| - 1])
    ensures AfterExponent(t + tail, i) == AfterExponent(t, i)
  {
    hide Digits;
    var s := t + tail;
    assert i < |s| ==> s[i] == if i < |t| then t[i] else tail[0];
    if i + 1 < |t| {
      assert s[i + 1] == t[i + 1];
      DigitsStopAt(t, tail, i + 1);
      DigitsStopAt(t, tail, i + 2);
    }
  }

  lemma BoundaryStopsAt(t: string, tail: string, n: nat)
    requires n <= |t| && EndsNumeral(tail)
    ensures Boundary(t + tail, n) == Boundary(t, n)
  {
    assert n < |t + tail| ==> (t + tail)[n] == if n < |t| then t[n] else tail[0];
  }

  lemma NumeralEnds(t: string)
    requires IsNumeral(t)
    ensures t != "" && IsDigit(t[0]) && IsDigit(t[|t| - 1]) && !IsSpace(t[0])
  {
    hide AfterFraction, AfterExponent, Boundary, IsNumeral;
    NumeralIff(t);
    assert t[0..] == t;
    assert RunLength(IsDigit, t) > 0;
  }

  lemma NumeralUses(t: string, tail: string)
    requires IsNumeral(t) && EndsNumeral(tail)
    ensures Uses(t + tail, 39, |t|)
  {
    hide IsNumeral;
    var s := t + tail;
    FloatStopsAt(t, tail);
    NumeralEnds(t);
    assert s[0] == t[0];
    forall j: nat | j < 39 && InInitial(j) ensures Match(j, s).None? {
      if Match(j, s).Some? {
        StartOfMatch(j, s);
        DigitsStartNumerals(j, s[0]);
      }
    }
    assert Match(39, s) == Some(|t|);
    hide Match;
    UsesFirst(s, 39, |t|);
  }

  lemma DigitsStartNumerals(r: nat, c: char)
    requires InInitial(r) && CanStart(r, c) && IsDigit(c)
    ensures r >= 39
  {
  }

  // ----- What is scanned is well written -----

  lemma DigitsOfPrefix(s: string, n: nat, i: nat)
    requires i <= n <= |s|
    ensures Digits(s[..n], i) == if i + Digits(s, i) <= n then Digits(s, i) else n - i
  {
    var t, d := s[..n], Digits(s, i);
    var m := if i + d <= n then d else n - i;
    assert forall j | 0 <= j < m :: t[i..][j] == s[i..][j];
    assert m < |t[i..]| ==> t[i..][m] == s[i..][m];
    RunIs(IsDigit, t[i..], m);
  }

  /** The part of a text that is scanned as a number is a numeral. */
  lemma NumeralIsWhole(s: string)
    requires FloatNumber(s).Some?
    ensures IsNumeral(s[..FloatNumber(s).value])
  {
    hide IsNumeral;
    NumeralIff(s[..FloatNumber(s).value]);
    var n, d := FloatNumber(s).value, Digits(s, 0);
    var f := AfterFraction(s, d);
    var e := AfterExponent(s, f);
    NumeralEnd(s);
    DigitsOfPrefix(s, n, 0);
    if n == e { FractionOfPrefix(s, n); }
  }

  lemma NumeralEnd(s: string)
    requires FloatNumber(s).Some?
    ensures var n, d := FloatNumber(s).value, Digits(s, 0);
            d > 0 && (n == AfterExponent(s, AfterFraction(s, d)) || n == d)
  {
    hide Digits;
  }

  lemma FractionOfPrefix(s: string, n: nat)
    requires n == AfterExponent(s, AfterFraction(s, Digits(s, 0)))
    ensures AfterFraction(s[..n], Digits(s, 0)) == AfterFraction(s, Digits(s, 0))
    ensures AfterExponent(s[..n], AfterFraction(s, Digits(s, 0))) == n
  {
    hide Digits;
    var t, d := s[..n], Digits(s, 0);
    var f := AfterFraction(s, d);
    assert forall i | 0 <= i < n :: t[i] == s[i];
    if d < n { DigitsOfPrefix(s, n, d + 1); }
    if f + 1 <= n { DigitsOfPrefix(s, n, f + 1); }
    if f + 2 <= n { DigitsOfPrefix(s, n, f + 2); }
  }

  lemma DigitsReach(s: string, i: nat, j: nat)
    requires i <= j && j < i + (if i <= |s| then Digits(s, i) else 0)
    ensures j < |s| && IsDigit(s[j])
  {
    assert s[i..][j - i] == s[j];
  }

  /** Digits that go on up to a word's edge are all there are. */
  lemma DigitsToEdge(s: string, i: nat, m: nat)
    requires i <= m <= |s| && Boundary(s, m) && i + Digits(s[..m], i) == m
    ensures Digits(s, i) == m - i
  {
    hide Digits;
    DigitsOfPrefix(s, m, i);
    if m < i + Digits(s, i) { DigitsReach(s, i, m); }
  }

  lemma ExponentToEdge(s: string, i: nat, m: nat)
    requires i < m <= |s| && Boundary(s, m) && AfterExponent(s[..m], i) == m
    ensures AfterExponent(s, i) == m
  {
    hide Digits;
    var t, k := s[..m], ExponentDigits(s[..m], i);
    assert t[i] == s[i] && (i + 1 < m ==> t[i + 1] == s[i + 1]);
    DigitsToEdge(s, k, m);
  }

  /** Rule 39 takes the longest numeral that ends at a word's edge. */
  lemma NumeralIsLongest(s: string, m: nat)
    requires m <= |s| && IsNumeral(s[..m]) && Boundary(s, m)
    ensures FloatNumber(s).Some? && m <= FloatNumber(s).value && Boundary(s, FloatNumber(s).value)
  {
    hide Digits, AfterFraction, AfterExponent, IsNumeralAt, Boundary;
    var t := s[..m];
    var a, b :| 0 <= a <= b <= m && IsNumeralAt(t, a, b);
    NumeralParts(t, a, b);
    DigitsOfPrefix(s, m, 0);
    if a == m { DigitsToEdge(s, 0, m); }
    var d := Digits(s, 0);
    assert a == d;
    if a < b {
      FractionToEdge(s, d, b, m);
    } else if b < m {
      ExponentToEdge(s, b, m);
      NoFractionHere(s, b, m);
    }
    if a < b < m { ExponentToEdge(s, b, m); }
  }

  /** So rule 40 is never the first to match. */
  lemma IntegersAreNumerals(s: string)
    ensures IntNumber(s).Some? ==> FloatNumber(s).Some?
  {
    hide Digits, AfterFraction, AfterExponent;
  }

  lemma FractionToEdge(s: string, a: nat, b: nat, m: nat)
    requires a < b <= m <= |s| && Boundary(s, m) && AfterFraction(s[..m], a) == b && AfterExponent(s[..m], b) == m
    ensures AfterFraction(s, a) == b
  {
    hide Digits;
    var t := s[..m];
    assert t[a] == s[a];
    if b == m { DigitsToEdge(s, a + 1, m); } else { DigitsOfPrefix(s, m, a + 1); }
  }

  lemma NoFractionHere(s: string, i: nat, m: nat)
    requires i < m <= |s| && AfterExponent(s[..m], i) == m
    ensures AfterFraction(s, i) == i
  {
    hide Digits;
    assert s[..m][i] == s[i];
  }

  /** A name is scanned as one only if it is no keyword. */
  lemma NameIsWhole(s: string, c: Condition)
    requires FirstMatch(Rules(c), s) == Some(38) && Match(38, s).Some? && Match(38, s).value <= |s|
    ensures IsName(s[..Match(38, s).value])
  {
    hide FirstMatch, IsName;
    var n := Match(38, s).value;
    var t := s[..n];
    NameIff(t);
    IdentifierIsWhole(s);
    if t in RESERVED {
      var r := ReservedRule(t);
      hide Match;
      ReservedMatches(r, t, s);
      NoEarlierRule(c, s, r);
      assert false;
    }
  }

  lemma IdentifierIsWhole(s: string)
    requires Match(38, s).Some? && Match(38, s).value <= |s|
    ensures var n := Match(38, s).value; Identifier(s[..n]) == Some(n) && Boundary(s, n)
  {
    var n := Match(38, s).value;
    var t := s[..n];
    assert n == RunLength(IsWord, s) && t[0] == s[0];
    assert forall i | 0 <= i < n :: IsWord(t[i]) && t[i] == s[i];
    RunIs(IsWord, t, n);
  }

  lemma NoEarlierRule(c: Condition, s: string, r: nat)
    requires FirstMatch(Rules(c), s) == Some(38) && r < 32
    ensures Match(r, s).None?
  {
    hide Match, Rules, FirstMatch;
    var k := FirstMatchIndex(Rules(c), s, 0);
    OnlyInitialHasNames(c);
    InitialRule(r);
    InitialRule(k);
  }

  lemma ReservedRule(t: string) returns (r: nat)
    requires t in RESERVED
    ensures (3 <= r <= 12 || 20 <= r <= 23) && KeywordOf(r) == t
  {
    r := if t == "function" then 3 else if t == "return" then 4 else if t == "if" then 5 else if t == "else" then 6
         else if t == "while" then 7 else if t == "for" then 8 else if t == "break" then 9
         else if t == "continue" then 10 else if t == "let" then 11 else if t == "const" then 12
         else if t == "true" then 20 else if t == "false" then 21 else if t == "NaN" then 22 else 23;
  }

  lemma ReservedMatches(r: nat, t: string, s: string)
    requires (3 <= r <= 12 || 20 <= r <= 23) && KeywordOf(r) == t
    requires |t| <= |s| && s[..|t|] == t && Boundary(s, |t|)
    ensures Match(r, s).Some?
  {
  }

  lemma OnlyInitialHasNames(c: Condition)
    ensures 38 in Rules(c) ==> c == Initial
  {
  }

  lemma InitialRule(i: nat)
    ensures i < |Rules(Initial)| ==> Rules(Initial)[i] == if i < 32 then i else i + 6
    ensures |Rules(Initial)| == 54
  {
  }

  // ----- Fillers and the end -----

  lemma SpacesUse(g: string, more: string)
    requires g != "" && IsSpace(g[0]) && (more != "" ==> !IsSpace(more[0]))
    ensures var n := RunLength(IsSpace, g); n > 0 && Uses(g + more, 2, n)
  {
    hide Match, FirstMatch, IsSpace;
    var s, n := g + more, RunLength(IsSpace, g);
    RunStopsAt(IsSpace, g, more);
    assert s[0] == g[0];
    NoCommentStartsBlank(s);
    EarlyMatches(s);
    UsesFirst(s, 2, n);
  }

  lemma EarlyMatches(s: string)
    ensures Match(0, s) == LineComment(s) && Match(1, s) == BlockComment(s) && Match(2, s) == OneOrMore(IsSpace, s)
  {
  }

  lemma {:induction false} FillerAfterSpaces(g: string)
    requires IsFiller(g)
    ensures IsFiller(g[RunLength(IsSpace, g)..])
  {
    hide IsSpace, BLANKS, IsFiller;
    if g != "" && IsSpace(g[0]) {
      BlankIff(g[0]);
      FillerGoesOn(g);
      FillerAfterSpaces(g[1..]);
      var n := RunLength(IsSpace, g);
      assert g[n..] == g[1..][n - 1..];
    } else {
      assert g[0..] == g;
    }
  }

  lemma FillerGoesOn(g: string)
    requires IsFiller(g) && g != "" && g[0] in BLANKS
    ensures IsFiller(g[1..])
  {
    assert '/' !in BLANKS;
    hide BLANKS, HasNoEnd, IsOneLine;
    assert forall n | 0 < n <= |g| :: g[..n][0] == g[0];
    assert forall n | 1 < n <= |g| :: g[..n][..2][0] == g[0];
  }

  lemma NoCommentStartsBlank(g: string)
    requires g != "" && IsSpace(g[0])
    ensures LineComment(g).None? && BlockComment(g).None?
  {
    assert |g| >= 2 ==> g[..2][0] == g[0];
  }

  /** Rule 0 takes `//` and the rest of the line, and nothing else. */
  lemma LineCommentIff(s: string, n: nat)
    ensures Match(0, s) == Some(n) <==>
            2 <= n <= |s| && s[..2] == "//" && IsOneLine(s[2..n]) && (n < |s| ==> s[n] == '\n' || s[n] == '\r')
  {
    EarlyMatches(s);
    hide Match;
    if |s| >= 2 && s[..2] == "//" {
      SameRunLength(s[2..]);
      var m := 2 + RunLength(InLine, s[2..]);
      assert forall i | 2 <= i < m :: s[i] == s[2..][i - 2];
      assert m < |s| ==> s[m] == s[2..][m - 2];
      assert forall i | 2 <= i < n <= |s| :: s[2..n][i - 2] == s[i];
    }
  }

  predicate InLine(c: char) {
    c != '\n' && c != '\r'
  }

  lemma {:induction false} SameRunLength(s: string)
    ensures RunLength(c => c != '\n' && c != '\r', s) == RunLength(InLine, s)
  {
    if s != "" { SameRunLength(s[1..]); }
  }

  /** Rule 1 takes a block comment up to the first place it can end, and nothing else. */
  lemma BlockCommentIff(s: string, n: nat)
    ensures Match(1, s) == Some(n) <==> n <= |s| && IsBlockComment(s[..n])
  {
    EarlyMatches(s);
    hide Match, CommentEnd;
    if n <= |s| && IsBlockComment(s[..n]) {
      BlockEnd(s, n);
    }
    if Match(1, s) == Some(n) {
      CommentEndsAt(s, 2);
      EndIsBlock(s, n);
    }
  }

  lemma EndIsBlock(s: string, n: nat)
    requires 4 <= n <= |s| && s[..2] == "/*" && s[n - 2..n] == "*/"
    requires forall j | 2 <= j < n - 2 :: !(s[j] == '*' && s[j + 1] == '/')
    ensures IsBlockComment(s[..n])
  {
    var t := s[2..n - 2];
    assert forall i | 0 <= i < |t| :: t[i] == s[i + 2];
    assert s[..n][2..n - 2] == t && s[..n] == s[..2] + t + s[n - 2..n];
  }

  lemma BlockEnd(s: string, n: nat)
    requires n <= |s| && IsBlockComment(s[..n])
    ensures s[..2] == "/*" && CommentEnd(s, 2) == Some(n)
  {
    hide CommentEnd;
    BlockPlaces(s[..n]);
    hide IsBlockComment;
    assert forall i | 0 <= i < n :: s[i] == s[..n][i];
    EndsFirst(s, 2, n - 2);
  }

  lemma BlockPlaces(g: string)
    requires IsBlockComment(g)
    ensures g[..2] == "/*" && g[|g| - 2] == '*' && g[|g| - 1] == '/'
    ensures forall i | 2 <= i < |g| - 2 :: !(g[i] == '*' && g[i + 1] == '/')
  {
    var t := g[2..|g| - 2];
    assert forall i | 0 <= i < |g| :: g[i] == ("/*" + t + "*/")[i];
    forall i | 2 <= i < |g| - 2 ensures !(g[i] == '*' && g[i + 1] == '/') {
      assert t[i - 2] == g[i];
      if i < |g| - 3 { assert t[i - 1] == g[i + 1]; }
    }
  }

  lemma {:induction false} EndsFirst(s: string, i: nat, m: nat)
    requires i <= m <= |s| - 2 && s[m] == '*' && s[m + 1] == '/'
    requires forall j | i <= j < m :: !(s[j] == '*' && s[j + 1] == '/')
    ensures CommentEnd(s, i) == Some(m + 2)
    decreases m - i
  {
    if i < m { EndsFirst(s, i + 1, m); }
  }

  lemma {:induction false} CommentEndsAt(s: string, i: nat)
    requires CommentEnd(s, i).Some?
    ensures var e := CommentEnd(s, i).value;
            && i + 2 <= e <= |s| && s[e - 2..e] == "*/"
            && forall j | i <= j < e - 2 :: !(s[j] == '*' && s[j + 1] == '/')
    decreases |s| - i
  {
    if !(s[i] == '*' && s[i + 1] == '/') { CommentEndsAt(s, i + 1); }
  }

  lemma LineCommentUses(s: string, n: nat)
    requires Match(0, s) == Some(n) && n > 0
    ensures Uses(s, 0, n)
  {
    hide Match;
    UsesFirst(s, 0, n);
  }

  lemma BlockCommentUses(s: string, n: nat)
    requires Match(1, s) == Some(n) && n <= |s| && IsBlockComment(s[..n])
    ensures Uses(s, 1, n)
  {
    hide Match;
    assert s[1] == s[..n][1];
    if Match(0, s).Some? {
      SecondOfMatch(0, s);
      assert false;
    }
    UsesFirst(s, 1, n);
  }

  /** A block comment before any text is one match of rule 1, and no token. */
  lemma BlockCommentIsDropped(l: State, t: string, more: string)
    requires !l.done && Current(l) == Initial && HasNoEnd(t) && l.input == "/*" + t + "*/" + more
    ensures var (a, l') := Next(l);
            a == Nothing && l'.text == "/*" + t + "*/" && l'.input == more && l'.conditions == l.conditions && !l'.done
  {
    hide Match, Lines, ColumnAfter;
    var g := "/*" + t + "*/";
    assert g[2..|g| - 2] == t && l.input[..|g|] == g && l.input[|g|..] == more;
    BlockCommentIff(l.input, |g|);
    BlockCommentUses(l.input, |g|);
    NextIs(l, 1, |g|);
  }

  /** A line comment before the end of its line, or of all, is one match of rule 0, and no token. */
  lemma LineCommentIsDropped(l: State, t: string, more: string)
    requires !l.done && Current(l) == Initial && IsOneLine(t) && l.input == "//" + t + more
    requires more != "" ==> more[0] == '\n' || more[0] == '\r'
    ensures var (a, l') := Next(l);
            a == Nothing && l'.text == "//" + t && l'.input == more && l'.conditions == l.conditions && !l'.done
  {
    hide Match, Lines, ColumnAfter;
    var g := "//" + t;
    assert l.input[2..|g|] == t && l.input[..2] == "//" && l.input[..|g|] == g && l.input[|g|..] == more;
    LineCommentIff(l.input, |g|);
    LineCommentUses(l.input, |g|);
    NextIs(l, 0, |g|);
  }

  /** Blanks before other text are one match of rule 2, and no token. */
  lemma BlanksAreDropped(l: State, g: string, more: string)
    requires !l.done && Current(l) == Initial && l.input == g + more && g != "" && forall c | c in g :: c in BLANKS
    requires more != "" ==> more[0] !in BLANKS
    ensures var (a, l') := Next(l);
            a == Nothing && l'.text == g && l'.input == more && l'.conditions == l.conditions && !l'.done
  {
    hide Match, Lines, ColumnAfter, BLANKS, IsSpace;
    forall i | 0 <= i < |g| ensures IsSpace(g[i]) { BlankIff(g[i]); }
    if more != "" { BlankIff(more[0]); }
    RunIs(IsSpace, g, |g|);
    SpacesUse(g, more);
    NextIs(l, 2, |g|);
    assert l.input[..|g|] == g && l.input[|g|..] == more;
  }

  lemma EndUses()
    ensures FirstMatch(Rules(Initial), "") == Some(58) && Match(58, "") == Some(0)
  {
    forall j: nat | j < 58 && InInitial(j) ensures Match(j, "").None? { NothingMatches(j); }
    hide Match;
    forall j | 0 <= j < 52 ensures Match(Rules(Initial)[j], "").None? {
      assert InInitial(Rules(Initial)[j]);
    }
    AtTheEndMatches();
    assert Rules(Initial)[52] == 58;
    FirstMatchIs(Rules(Initial), "", 0, 52);
  }

  lemma AtTheEndMatches()
    ensures Match(58, "") == Some(0)
  {
  }

  lemma NothingMatches(r: nat)
    requires InInitial(r)
    ensures Match(r, "").None?
  {
  }

  /** What the scanner drops outside of strings is a comment or blanks, or the quote that opens a string. */
  lemma DroppedIs(l: State)
    requires !l.done && Current(l) == Initial && Next(l).0 == Nothing
    ensures var t := Next(l).1.text;
            || (t != "" && forall c | c in t :: c in BLANKS) || IsBlockComment(t)
            || (|t| >= 2 && t[..2] == "//" && IsOneLine(t[2..])) || t == "\"" || t == "'"
  {
    hide Match, FirstMatch, Lines, ColumnAfter, BLANKS, IsSpace, IsBlockComment, IsOneLine;
    var s := l.input;
    var r := FirstMatch(Rules(Initial), s).value;
    MatchFits(r, s);
    DroppedBy(s, r);
    var n := Match(r, s).value;
    EarlyMatches(s);
    if r == 0 {
      LineCommentIff(s, n);
      assert s[..n][..2] == s[..2] && s[..n][2..] == s[2..n];
    } else if r == 1 {
      BlockCommentIff(s, n);
    } else if r == 2 {
      forall c | c in s[..n] ensures c in BLANKS {
        var i :| 0 <= i < n && s[..n][i] == c;
        assert s[i] == c && IsSpace(s[i]);
        BlankIff(c);
      }
    } else {
      QuoteMatches(r, s);
    }
  }

  lemma DroppedBy(s: string, r: nat)
    requires FirstMatch(Rules(Initial), s) == Some(r) && TokenOf(r) == None
    ensures r <= 2 || r == 30 || r == 31
  {
    hide Match, FirstMatch;
    var k := FirstMatchIndex(Rules(Initial), s, 0);
  }

  lemma QuoteMatches(r: nat, s: string)
    requires (r == 30 || r == 31) && Match(r, s).Some?
    ensures |s| > 0 && Match(r, s) == Some(1) && (s[..1] == "\"" || s[..1] == "'")
  {
  }

  // ----- All the words -----

  lemma SymbolUses(k: nat, tail: string)
    requires SymbolRule(k).Some? && (tail != "" ==> MayFollow(k, tail[0]))
    ensures var (r, t) := SymbolRule(k).value; Uses(t + tail, r, |t|)
  {
    hide Uses, MarkRule, KeywordOf, KeywordRule, IsWord;
    if IsKeyword(k) { KeywordUses(k, tail); } else { MarkUses(k, tail); }
  }

  function RuleOf(w: Word): nat
    requires IsWordOf(w)
  {
    if w.kind == 73 then 38 else if w.kind == 57 then 39 else SymbolRule(w.kind).value.0
  }

  lemma WordUses(w: Word, tail: string)
    requires IsWordOf(w) && (tail != "" ==> MayFollow(w.kind, tail[0]))
    ensures Uses(w.text + tail, RuleOf(w), |w.text|) && TokenOf(RuleOf(w)) == Some(w.kind)
    ensures AfterRule(RuleOf(w), [Initial]) == [Initial] && w.text != "" && !IsSpace(w.text[0])
  {
    hide FirstMatch, Match, RunLength, IsNumeral, IsName, Uses, IsSpace, MarkRule, KeywordRule, KeywordOf;
    if w.kind == 73 {
      NameUses(w.text, tail);
      NameStarts(w.text);
    } else if w.kind == 57 {
      NumeralUses(w.text, tail);
      NumeralEnds(w.text);
    } else {
      SymbolUses(w.kind, tail);
      SymbolStarts(w.kind);
      assert SymbolRule(w.kind).value == (RuleOf(w), w.text);
    }
  }

  lemma NameStarts(t: string)
    requires IsName(t)
    ensures t != "" && !IsSpace(t[0])
  {
    LetterIff(t[0]);
    hide IsLetter;
  }

  lemma SymbolStarts(k: nat)
    requires SymbolRule(k).Some?
    ensures var (r, t) := SymbolRule(k).value;
            t != "" && !IsSpace(t[0]) && TokenOf(r) == Some(k) && AfterRule(r, [Initial]) == [Initial]
  {
    hide TokenOf, AfterRule, MarkRule, KeywordOf, KeywordRule, IsSpace;
    if IsKeyword(k) { KeywordStarts(k); } else { MarkStarts(k); }
  }

  lemma MarkStarts(k: nat)
    requires MarkRule(k).Some?
    ensures var (r, t) := MarkRule(k).value;
            t != "" && !IsSpace(t[0]) && TokenOf(r) == Some(k) && AfterRule(r, [Initial]) == [Initial]
  {
  }

  lemma KeywordStarts(k: nat)
    requires IsKeyword(k)
    ensures var r := KeywordRule(k);
            var t := KeywordOf(r);
            t != "" && !IsSpace(t[0]) && TokenOf(r) == Some(k) && AfterRule(r, [Initial]) == [Initial]
  {
  }

  lemma NextIs(l: State, r: nat, n: nat)
    requires !l.done && Current(l) == Initial && Uses(l.input, r, n)
    ensures Next(l) == (match TokenOf(r) case Some(k) => Kind(k) case None => Nothing, Consume(l, r, n))
  {
    hide Match, FirstMatch, Rules, Consume, TokenOf;
  }

  /** The scanner is in front of a filler and lexemes. */
  ghost predicate AtWords(l: State, lead: string, xs: seq<Lexeme>, gaps: seq<string>) {
    && !l.done && l.conditions == [Initial] && IsFiller(lead)
    && |gaps| == |xs| && AreApart(xs, gaps) && (forall x | x in xs :: IsLexeme(x))
    && l.input == lead + Rendered(xs, gaps)
  }

  /** A step into a filler yields nothing, and leaves a shorter one. */
  lemma SkipsFiller(l: State, lead: string, more: string) returns (left: string)
    requires !l.done && l.conditions == [Initial] && IsFiller(lead) && lead != "" && l.input == lead + more
    requires more != "" ==> !IsSpace(more[0])
    ensures |left| < |lead| && IsFiller(left)
    ensures var (a, l') := Next(l); a == Nothing && l'.input == left + more && l'.conditions == [Initial] && !l'.done
  {
    hide IsFiller, Uses, Lines, ColumnAfter, IsSpace, Next;
    var r, n := FillerUses(lead, more);
    UsesFits(l.input, r, n);
    NextIs(l, r, n);
    left := lead[n..];
    assert l.input[n..] == left + more;
  }

  lemma FillerUses(lead: string, more: string) returns (r: nat, n: nat)
    requires IsFiller(lead) && lead != "" && (more != "" ==> !IsSpace(more[0]))
    ensures r <= 2 && 0 < n <= |lead| && Uses(lead + more, r, n) && IsFiller(lead[n..])
  {
    hide Uses, Match, BLANKS, IsSpace, IsBlockComment, IsLineComment;
    BlankIff(lead[0]);
    if IsSpace(lead[0]) {
      r, n := 2, RunLength(IsSpace, lead);
      SpacesUse(lead, more);
      FillerAfterSpaces(lead);
    } else {
      n :| 0 < n <= |lead| && (IsBlockComment(lead[..n]) || IsLineComment(lead[..n])) && IsFiller(lead[n..]);
      assert (lead + more)[..n] == lead[..n];
      if IsBlockComment(lead[..n]) {
        r := 1;
        BlockCommentIff(lead + more, n);
        BlockCommentUses(lead + more, n);
      } else {
        LineOf(lead, more, n);
        r, n := 0, n - 1;
        LineCommentIff(lead + more, n);
        LineCommentUses(lead + more, n);
      }
    }
  }

  lemma LineOf(lead: string, more: string, n: nat)
    requires n <= |lead| && IsLineComment(lead[..n]) && IsFiller(lead[n..])
    ensures n > 2 && (lead + more)[..2] == "//" && IsOneLine((lead + more)[2..n - 1])
    ensures (lead + more)[n - 1] == '\n' || (lead + more)[n - 1] == '\r'
    ensures IsFiller(lead[n - 1..])
  {
    var g := lead[..n];
    assert g[..2] == lead[..2] && g[2..n - 1] == (lead + more)[2..n - 1] && (lead + more)[..2] == lead[..2];
    BlankIff(lead[n - 1]);
    assert lead[n - 1..][1..] == lead[n..];
  }

  lemma TakesWord(l: State, w: Word, tail: string)
    requires !l.done && l.conditions == [Initial] && l.input == w.text + tail && IsWordOf(w)
    requires tail != "" ==> MayFollow(w.kind, tail[0])
    ensures var (a, l') := Next(l);
            a == Kind(w.kind) && l'.text == w.text && l'.input == tail && l'.conditions == [Initial] && !l'.done
  {
    hide IsWordOf, Uses, Lines, ColumnAfter, TokenOf, RuleOf, AfterRule, Next, MayFollow;
    WordUses(w, tail);
    UsesFits(l.input, RuleOf(w), |w.text|);
    NextIs(l, RuleOf(w), |w.text|);
    assert l.input[..|w.text|] == w.text && l.input[|w.text|..] == tail && l.input != "";
  }

  lemma UsesFits(s: string, r: nat, n: nat)
    requires Uses(s, r, n)
    ensures n <= |s|
  {
  }

  lemma KindIsNotEnd(w: Word)
    requires IsWordOf(w)
    ensures w.kind != END
  {
    hide IsName, IsNumeral;
  }

  lemma TakesEnd(l: State)
    requires !l.done && l.conditions == [Initial] && l.input == ""
    ensures var (a, l') := Next(l); a == Kind(5) && l'.text == "" && l'.done
  {
    hide Match, FirstMatch;
    EndUses();
    NextIs(l, 58, 0);
  }

  /** Scanning lexemes that are apart gives their words back, and the end of the file. */
  lemma {:induction false} ScansWords(l: State, lead: string, xs: seq<Lexeme>, gaps: seq<string>)
    requires AtWords(l, lead, xs, gaps)
    ensures Tokens(l).Some? && WordsOf(Tokens(l).value) == Words(xs) + [Word(5, "")]
    decreases |xs|, |lead|
  {
    hide IsLexeme, Next, IsFiller, AreApart, Rendered, Tokens, Words, WordsIn, Steps;
    if lead != "" {
      LexemesStart(xs, gaps);
      var left := SkipsFiller(l, lead, Rendered(xs, gaps));
      ScansWords(Next(l).1, left, xs, gaps);
      SkipsNothing(l);
    } else if xs == [] {
      NothingRendered(gaps);
      TakesEnd(l);
      StopsWhenDone(Next(l).1);
      TakesToken(l, 5);
      assert [] + [Word(5, "")] == [Word(5, "")];
    } else {
      var k := TakesLexeme(l, xs, gaps);
      ScansWords(Steps(l, k), gaps[0], xs[1..], gaps[1..]);
      WordsGoOn(xs[0]);
      EmittedAreTokens(l, k);
      FirstWords(xs);
      assert (WordsIn(xs[0]) + Words(xs[1..])) + [Word(5, "")] == WordsIn(xs[0]) + (Words(xs[1..]) + [Word(5, "")]);
    }
  }

  lemma NothingRendered(gaps: seq<string>)
    requires |gaps| == 0
    ensures Rendered([], gaps) == "" && Words([]) == []
  {
  }

  lemma FirstWords(xs: seq<Lexeme>)
    requires xs != []
    ensures Words(xs) == WordsIn(xs[0]) + Words(xs[1..])
  {
  }

  lemma LexemesStart(xs: seq<Lexeme>, gaps: seq<string>)
    requires |gaps| == |xs| && forall x | x in xs :: IsLexeme(x)
    ensures Rendered(xs, gaps) != "" ==> !IsSpace(Rendered(xs, gaps)[0])
  {
    hide IsLexeme, IsSpace;
    if xs != [] {
      LexemeStarts(xs[0]);
      assert Rendered(xs, gaps)[0] == TextIn(xs[0])[0];
    }
  }

  lemma LexemeStarts(x: Lexeme)
    requires IsLexeme(x)
    ensures TextIn(x) != "" && !IsSpace(TextIn(x)[0])
  {
    hide Uses, IsWordOf;
    if x.Single? {
      hide IsSpace;
      WordUses(x.word, "");
    }
  }

  /** Some number of steps takes a lexeme. */
  lemma TakesLexeme(l: State, xs: seq<Lexeme>, gaps: seq<string>) returns (k: nat)
    requires AtWords(l, "", xs, gaps) && xs != []
    ensures Emitted(l, k) == WordsIn(xs[0]) && AtWords(Steps(l, k), gaps[0], xs[1..], gaps[1..])
  {
    hide IsWordOf, Next, IsFiller, MayFollow, LiteralWords, LiteralText;
    var tail := gaps[0] + Rendered(xs[1..], gaps[1..]);
    assert "" + Rendered(xs, gaps) == TextIn(xs[0]) + tail && xs[0] in xs;
    match xs[0]
    case Single(w) =>
      TakesWord(l, w, tail);
      k := 1;
      assert Steps(l, 1) == Steps(Next(l).1, 0) && Emitted(Next(l).1, 0) == [];
    case Quoted(q, s) =>
      k := ScansLiteral(q, s, l, tail);
  }

  lemma WordsGoOn(x: Lexeme)
    requires IsLexeme(x)
    ensures forall w | w in WordsIn(x) :: w.kind != END
  {
    hide IsName, IsNumeral, LiteralWords;
    match x
    case Single(w) => KindIsNotEnd(w);
    case Quoted(q, s) => LiteralsGoOn(q, s);
  }

  lemma LiteralsGoOn(q: char, s: string)
    ensures forall w | w in LiteralWords(q, s) :: IsStringToken(w.kind)
  {
    hide Pieces;
    if s != "" { PiecesGoOn(q, s); }
  }

  lemma {:induction false} PiecesGoOn(q: char, s: string)
    ensures forall w | w in Pieces(q, s) :: IsStringToken(w.kind)
    decreases |s|
  {
    hide RunLength;
    if s != "" {
      if IsPlain(q, s[0]) { PiecesGoOn(q, s[RunLength(Plain(q), s)..]); } else { PiecesGoOn(q, s[1..]); }
    }
  }

  lemma ErrorShows(l: State, k: nat)
    requires k > 0 && Next(l).0.LexicalError?
    ensures Word(END, "") in Emitted(l, k) && Word(END, "").kind == END
  {
    hide Next;
  }

  /** Steps without an error or the end emit the next tokens. */
  lemma {:induction false} EmittedAreTokens(l: State, k: nat)
    requires (forall w | w in Emitted(l, k) :: w.kind != END) && Tokens(Steps(l, k)).Some?
    ensures Tokens(l).Some? && WordsOf(Tokens(l).value) == Emitted(l, k) + WordsOf(Tokens(Steps(l, k)).value)
    decreases k
  {
    hide Next, Tokens, WordsOf, Emitted;
    EmitsFirst(l, k);
    if k > 0 {
      var (a, l') := Next(l);
      if a.LexicalError? { ErrorShows(l, k); }
      EmittedAreTokens(l', k - 1);
      match a
      case Kind(kind) =>
        TakesToken(l, kind);
        FirstWord(Tokens(l).value, Tokens(l').value);
      case Nothing => SkipsNothing(l);
      case LexicalError => assert false;
    }
  }

  lemma EmitsFirst(l: State, k: nat)
    ensures k == 0 ==> Emitted(l, k) == []
    ensures k > 0 ==>
              var (a, l') := Next(l);
              && (a.Nothing? ==> Emitted(l, k) == Emitted(l', k - 1))
              && (a.Kind? ==> Emitted(l, k) == [Word(a.kind, l'.text)] + Emitted(l', k - 1))
              && forall w | w in Emitted(l', k - 1) :: w in Emitted(l, k)
  {
    hide Next;
  }

  lemma FirstWord(ks: seq<Token>, more: seq<Token>)
    requires ks != [] && ks == [ks[0]] + more
    ensures WordsOf(ks) == [WordOf(ks[0])] + WordsOf(more)
  {
  }

  lemma SkipsNothing(l: State)
    requires Next(l).0 == Nothing
    ensures Tokens(l) == Tokens(Next(l).1)
  {
    hide Next;
    assert Lex(l) == Lex(Next(l).1);
  }

  lemma StopsWhenDone(l: State)
    requires l.done
    ensures Tokens(l) == Some([])
  {
  }

  lemma TakesToken(l: State, k: nat)
    requires Next(l).0 == Kind(k) && k != END && Tokens(Next(l).1).Some?
    ensures var l' := Next(l).1;
            Tokens(l) == Some([Token(k, l'.text, l'.line, l'.place)] + Tokens(l').value)
  {
    hide Next;
    assert Lex(l) == Next(l);
  }
}

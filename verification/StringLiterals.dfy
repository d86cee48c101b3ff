/** String literals: escaping, scanning through the conditions, and what the grammar makes of the pieces. */
module StringLiterals {
  import opened Options
  import Syntax
  import opened LRParser
  import opened Grammar
  import opened LRSoundness
  import opened Lexer
  import opened LexerRuns

  /** The string a list of pieces denotes: productions 63 to 67, which are right recursive. */
  function Fold(ps: seq<Word>): Option<string> {
    if ps == [] then None
    else if ps[0].kind == EMPTY_STRING then (if |ps| == 1 then Some("") else None)
    else if ps[0].kind == PLAIN || ps[0].kind == ESCAPE then
      var t := if ps[0].kind == PLAIN then ps[0].text else Unescape(ps[0].text);
      if |ps| == 1 then Some(t)
      else match Fold(ps[1..]) case Some(more) => Some(t + more) case None => None
    else None
  }

  predicate IsQuote(q: char) {
    q == '\"' || q == '\''
  }

  function Inside(q: char): Condition
    requires IsQuote(q)
  {
    if q == '\"' then DoubleQuoted else SingleQuoted
  }

  predicate IsPlain(q: char, c: char) {
    c != q && c != '\\'
  }

  function Plain(q: char): char -> bool {
    c => IsPlain(q, c)
  }

  /** Escapes the backslash and the quote. */
  function Escaping(q: char, s: string): string {
    if s == "" then "" else (if IsPlain(q, s[0]) then [s[0]] else ['\\', s[0]]) + Escaping(q, s[1..])
  }

  /** The pieces the scanner cuts an escaped string into: maximal plain runs and escapes. */
  function Pieces(q: char, s: string): seq<Word>
    decreases |s|
  {
    if s == "" then []
    else if !IsPlain(q, s[0]) then [Word(ESCAPE, [s[0]])] + Pieces(q, s[1..])
    else
      var n := RunLength(Plain(q), s);
      [Word(PLAIN, s[..n])] + Pieces(q, s[n..])
  }

  lemma {:induction false} PiecesDenote(q: char, s: string)
    requires IsQuote(q) && s != ""
    ensures Fold(Pieces(q, s)) == Some(s)
    decreases |s|
  {
    hide Unescape, RunLength, Fold, Pieces, IsPlain, IsQuote, Plain;
    var n, first, t := FirstPiece(q, s);
    if n < |s| {
      PiecesDenote(q, s[n..]);
    } else {
      NoPieces(q);
      assert s[n..] == "";
    }
    FirstDenotes(first, Pieces(q, s[n..]), t, s[n..]);
    assert s == s[..n] + s[n..];
  }

  lemma NoPieces(q: char)
    ensures Pieces(q, "") == []
  {
  }

  /** The first piece, and the characters it stands for. */
  lemma FirstPiece(q: char, s: string) returns (n: nat, first: Word, t: string)
    requires IsQuote(q) && s != ""
    ensures 0 < n <= |s| && t == s[..n] && Pieces(q, s) == [first] + Pieces(q, s[n..])
    ensures first == Word(PLAIN, t) || (first.kind == ESCAPE && Unescape(first.text) == t)
  {
    hide Unescape;
    n := if IsPlain(q, s[0]) then RunLength(Plain(q), s) else 1;
    t := s[..n];
    first := if IsPlain(q, s[0]) then Word(PLAIN, t) else Word(ESCAPE, [s[0]]);
    if !IsPlain(q, s[0]) { UnescapesToItself(q, s[0]); }
    assert s[..1] == [s[0]];
  }

  lemma FirstDenotes(first: Word, more: seq<Word>, t: string, u: string)
    requires first == Word(PLAIN, t) || (first.kind == ESCAPE && Unescape(first.text) == t)
    requires u != "" ==> Fold(more) == Some(u)
    requires u == "" ==> more == []
    ensures Fold([first] + more) == Some(t + u)
  {
    hide Unescape;
    assert ([first] + more)[1..] == more;
    if u == "" { assert t + u == t && [first] + more == [first]; }
  }

  lemma UnescapesToItself(q: char, c: char)
    requires IsQuote(q) && !IsPlain(q, c)
    ensures Unescape([c]) == [c]
  {
    assert [c][0] != 'b' && [c][0] != 'n' && [c][0] != 'r' && [c][0] != 't';
    assert c == '\'' ==> [c] == "'";
    assert c == '\"' ==> [c] == "\"";
    assert c == '\\' ==> [c] == "\\";
  }

  // ----- Scanning -----

  /** The words that `k` steps yield; an error shows as the end. */
  function Emitted(l: State, k: nat): seq<Word>
    decreases k
  {
    if k == 0 then []
    else
      var (a, l') := Next(l);
      var first := match a
                   case Kind(kind) => [Word(kind, l'.text)]
                   case Nothing => []
                   case LexicalError => [Word(END, "")];
      first + Emitted(l', k - 1)
  }

  lemma {:induction false} EmittedSplits(l: State, j: nat, k: nat)
    ensures Steps(l, j + k) == Steps(Steps(l, j), k)
    ensures Emitted(l, j + k) == Emitted(l, j) + Emitted(Steps(l, j), k)
    decreases j
  {
    hide Next;
    if j > 0 { EmittedSplits(Next(l).1, j - 1, k); }
  }

  /** The step to be taken in `l` is by rule `r`, with a match of length `n`. */
  ghost predicate Fires(l: State, r: nat, n: nat) {
    && !l.done && l.input != "" && n <= |l.input|
    && FirstMatch(Rules(Current(l)), l.input) == Some(r) && Match(r, l.input) == Some(n)
  }

  /** Inside quotes: an escape is begun, the quote ends the string, anything else is a plain run. */
  lemma InsideFires(q: char, l: State, n: nat)
    requires IsQuote(q) && Current(l) == Inside(q) && l.input != "" && !l.done
    requires l.input[0] != '\\' && IsPlain(q, l.input[0]) ==> n == RunLength(Plain(q), l.input)
    requires l.input[0] == '\\' || !IsPlain(q, l.input[0]) ==> n == 1
    ensures l.input[0] == '\\' ==> Fires(l, 32, n)
    ensures l.input[0] == q ==> Fires(l, if q == '\"' then 33 else 34, n)
    ensures IsPlain(q, l.input[0]) ==> Fires(l, if q == '\"' then 36 else 37, n)
  {
    hide FirstMatch, RunLength, Rules;
    var rules := Rules(Current(l));
    InsideRules(q);
    var c := l.input[0];
    assert l.input[..1] == [c];
    SameRun(q, l.input);
    FirstMatchIs(rules, l.input, 0, if c == '\\' then 0 else if c == q then 1 else 2);
  }

  lemma InsideRules(q: char)
    requires IsQuote(q)
    ensures Rules(Inside(q)) == if q == '\"' then [32, 33, 36] else [32, 34, 37]
  {
  }

  lemma {:induction false} SameRun(q: char, s: string)
    requires IsQuote(q)
    ensures RunLength(Plain(q), s) ==
            if q == '\"' then RunLength(c => c != '\"' && c != '\\', s) else RunLength(c => c != '\'' && c != '\\', s)
  {
    if s != "" { SameRun(q, s[1..]); }
  }

  /** One step of the scanner with its rule given. */
  lemma StepBy(l: State, r: nat, n: nat) returns (l': State)
    requires Fires(l, r, n)
    ensures l' == Steps(l, 1) && l'.input == l.input[n..] && l'.conditions == AfterRule(r, l.conditions) && !l'.done
    ensures Emitted(l, 1) == if TokenOf(r).Some? then [Word(TokenOf(r).value, l.input[..n])] else []
  {
    hide Match, FirstMatch, Rules, TokenOf, Lines, ColumnAfter, AfterRule;
    l' := Next(l).1;
    assert Steps(l, 1) == Steps(l', 0) && Emitted(l', 0) == [];
  }

  /** What can be escaped: any character but a line end, or a line end by line feed. */
  predicate CanBeEscaped(e: string) {
    (|e| == 1 && !IsLineEnd(e[0])) || e == "\n" || e == "\r\n"
  }

  lemma EscapedFires(l: State, e: string, rest: string)
    requires Current(l) == QuotedEscape && CanBeEscaped(e) && l.input == e + rest && !l.done
    ensures Fires(l, 35, |e|)
  {
    assert l.input[0] == e[0] && l.input[..|e|] == e;
    assert e == "\n" ==> |l.input| >= 2 ==> l.input[..2][0] == '\n';
    FirstMatchIs(Rules(Current(l)), l.input, 0, 0);
  }

  /** Only the input, the condition stack and the counters have moved. */
  ghost predicate Behind(l': State, conditions: seq<Condition>, rest: string) {
    l'.input == rest && l'.conditions == conditions && !l'.done
  }

  lemma EscapeRules(cs: seq<Condition>)
    requires cs != []
    ensures TokenOf(32) == None && TokenOf(35) == Some(ESCAPE)
    ensures AfterRule(32, cs) == cs + [QuotedEscape] && AfterRule(35, cs + [QuotedEscape]) == cs
  {
    assert (cs + [QuotedEscape])[..|cs|] == cs;
  }

  /** An escape: two steps, one piece. */
  lemma ScanEscape(q: char, l: State, e: string, rest: string)
    requires IsQuote(q) && Current(l) == Inside(q) && !l.done && l.input == ['\\'] + e + rest
    requires l.conditions != [] && CanBeEscaped(e)
    ensures Emitted(l, 2) == [Word(ESCAPE, e)] && Behind(Steps(l, 2), l.conditions, rest)
  {
    EscapeRules(l.conditions);
    hide Fires, Steps, Emitted, IsPlain, CanBeEscaped, TokenOf, AfterRule;
    assert l.input[0] == '\\' && l.input[1..] == e + rest && (e + rest)[|e|..] == rest;
    InsideFires(q, l, 1);
    var l1 := StepBy(l, 32, 1);
    assert l1.conditions == l.conditions + [QuotedEscape];
    EscapedFires(l1, e, rest);
    var l2 := StepBy(l1, 35, |e|);
    assert l1.input[..|e|] == e;
    EmittedSplits(l, 1, 1);
  }

  /** A plain run: one step, one piece. */
  lemma ScanPlain(q: char, l: State, run: string, rest: string)
    requires IsQuote(q) && Current(l) == Inside(q) && !l.done && run != "" && l.input == run + rest
    requires (forall i | 0 <= i < |run| :: IsPlain(q, run[i])) && rest != "" && !IsPlain(q, rest[0])
    ensures Emitted(l, 1) == [Word(PLAIN, run)] && Behind(Steps(l, 1), l.conditions, rest)
  {
    hide Fires, Steps, Emitted, RunLength, IsPlain;
    RunIs(Plain(q), l.input, |run|);
    assert l.input[0] == run[0] && IsPlain(q, run[0]) && l.input[..|run|] == run && l.input[|run|..] == rest;
    PlainIsNot(q, run[0]);
    InsideFires(q, l, |run|);
    var l1 := StepBy(l, if q == '\"' then 36 else 37, |run|);
  }

  lemma PlainIsNot(q: char, c: char)
    requires IsPlain(q, c)
    ensures c != '\\' && c != q
  {
  }

  /** The closing quote: one step, no piece, back to the outer condition. */
  lemma ScanClose(q: char, l: State, rest: string)
    requires IsQuote(q) && Current(l) == Inside(q) && !l.done && l.input == [q] + rest && |l.conditions| > 1
    ensures Emitted(l, 1) == [] && Behind(Steps(l, 1), l.conditions[..|l.conditions| - 1], rest)
  {
    InsideFires(q, l, 1);
    hide Fires, Steps, Emitted;
    var l1 := StepBy(l, if q == '\"' then 33 else 34, 1);
  }

  /** The first character of what is left to scan, if it has to be escaped. */
  lemma ScanEscaped(q: char, s: string, l: State, rest: string)
    requires IsQuote(q) && Current(l) == Inside(q) && !l.done && l.conditions != [] && s != "" && !IsPlain(q, s[0])
    requires l.input == Escaping(q, s) + [q] + rest
    ensures Emitted(l, 2) == [Word(ESCAPE, [s[0]])]
    ensures Behind(Steps(l, 2), l.conditions, Escaping(q, s[1..]) + [q] + rest)
  {
    hide Fires, Steps, Emitted, IsPlain, Escaping, Inside, IsLineEnd, Behind;
    EscapedIsNoLineEnd(q, s[0]);
    EscapingFirst(q, s);
    Regrouped(['\\', s[0]], Escaping(q, s[1..]), [q], rest);
    assert ['\\'] + [s[0]] == ['\\', s[0]];
    ScanEscape(q, l, [s[0]], Escaping(q, s[1..]) + [q] + rest);
  }

  lemma EscapingFirst(q: char, s: string)
    requires s != "" && !IsPlain(q, s[0])
    ensures Escaping(q, s) == ['\\', s[0]] + Escaping(q, s[1..])
  {
  }

  lemma EscapedIsNoLineEnd(q: char, c: char)
    requires IsQuote(q) && !IsPlain(q, c)
    ensures !IsLineEnd(c)
  {
  }

  /** The plain characters it begins with. */
  lemma ScanPlainRun(q: char, s: string, l: State, rest: string)
    requires IsQuote(q) && Current(l) == Inside(q) && !l.done && s != "" && IsPlain(q, s[0])
    requires l.input == Escaping(q, s) + [q] + rest
    ensures var n := RunLength(Plain(q), s);
            && 0 < n <= |s| && Emitted(l, 1) == [Word(PLAIN, s[..n])]
            && Behind(Steps(l, 1), l.conditions, Escaping(q, s[n..]) + [q] + rest)
  {
    hide Fires, Steps, Emitted, IsPlain, Escaping, RunLength, Inside;
    var n := RunLength(Plain(q), s);
    PlainRunStops(q, s, rest);
    EscapingSplits(q, s, n);
    var run, more := s[..n], Escaping(q, s[n..]) + [q] + rest;
    Regrouped(run, Escaping(q, s[n..]), [q], rest);
    assert |run| == n && forall i | 0 <= i < n :: run[i] == s[i];
    ScanPlain(q, l, run, more);
  }

  lemma Regrouped(a: string, b: string, c: string, d: string)
    ensures (a + b) + c + d == a + (b + c + d)
  {
  }

  lemma PlainRunStops(q: char, s: string, rest: string)
    requires IsQuote(q) && s != "" && IsPlain(q, s[0])
    ensures var n := RunLength(Plain(q), s);
            var more := Escaping(q, s[n..]) + [q] + rest;
            0 < n && (forall i | 0 <= i < n :: IsPlain(q, s[i])) && more != "" && !IsPlain(q, more[0])
  {
    var n := RunLength(Plain(q), s);
    if n < |s| { assert Escaping(q, s[n..])[0] == '\\'; } else { assert s[n..] == ""; }
  }

  /** From inside the quotes: some number of steps yields the pieces and leaves the string. */
  lemma {:induction false} ScanInside(q: char, s: string, l: State, rest: string) returns (k: nat)
    requires IsQuote(q) && Current(l) == Inside(q) && !l.done && |l.conditions| > 1
    requires l.input == Escaping(q, s) + [q] + rest
    ensures Emitted(l, k) == Pieces(q, s) && Behind(Steps(l, k), l.conditions[..|l.conditions| - 1], rest)
    decreases |s|
  {
    hide Next, Steps, Emitted, IsPlain, Escaping, RunLength;
    if s == "" {
      k := 1;
      NothingEscaped(q);
      assert l.input == [q] + rest;
      ScanClose(q, l, rest);
    } else if !IsPlain(q, s[0]) {
      ScanEscaped(q, s, l, rest);
      var j := ScanInside(q, s[1..], Steps(l, 2), rest);
      EmittedSplits(l, 2, j);
      k := 2 + j;
    } else {
      ScanPlainRun(q, s, l, rest);
      var j := ScanInside(q, s[RunLength(Plain(q), s)..], Steps(l, 1), rest);
      EmittedSplits(l, 1, j);
      k := 1 + j;
    }
  }

  lemma NothingEscaped(q: char)
    ensures Escaping(q, "") == ""
  {
  }

  lemma EscapingStep(q: char, s: string)
    requires s != "" && IsPlain(q, s[0])
    ensures Escaping(q, s) == [s[0]] + Escaping(q, s[1..])
  {
  }

  lemma {:induction false} EscapingSplits(q: char, s: string, n: nat)
    requires n <= |s| && forall i | 0 <= i < n :: IsPlain(q, s[i])
    ensures Escaping(q, s) == s[..n] + Escaping(q, s[n..])
  {
    hide IsPlain, Escaping;
    if n > 0 {
      assert forall i | 0 <= i < n - 1 :: s[1..][i] == s[i + 1];
      EscapingSplits(q, s[1..], n - 1);
      EscapingStep(q, s);
      assert s[1..][n - 1..] == s[n..] && s[..n] == [s[0]] + s[1..][..n - 1];
    } else {
      assert s[0..] == s && s[..0] == [];
    }
  }

  // ----- From the outside -----

  /** At the start of a literal no earlier rule matches. */
  lemma OpeningFires(q: char, l: State, r: nat)
    requires IsQuote(q) && Current(l) == Initial && !l.done && |l.input| > 1 && l.input[0] == q
    requires r == (if l.input[1] == q then 28 else 30) + (if q == '\"' then 0 else 1)
    ensures Fires(l, r, if r < 30 then 2 else 1)
  {
    var s := l.input;
    assert s[..2] == [s[0], s[1]] && s[..1] == [s[0]];
    forall j: nat | j < r ensures Match(j, s).None? { QuoteStartsNothingElse(q, s, j); }
    FirstMatchIs(Rules(Initial), s, 0, r);
  }

  lemma QuoteStartsNothingElse(q: char, s: string, j: nat)
    requires IsQuote(q) && |s| > 1 && s[0] == q
    requires j < (if s[1] == q then 28 else 30) + (if q == '\"' then 0 else 1)
    ensures Match(j, s).None?
  {
    assert s[..1][0] == q && s[..2][0] == q && s[..2][1] == s[1];
  }

  function LiteralText(q: char, s: string): string {
    [q] + Escaping(q, s) + [q]
  }

  /** The words the scanner cuts a literal into. */
  function LiteralWords(q: char, s: string): seq<Word> {
    if s == "" then [Word(EMPTY_STRING, [q, q])] else Pieces(q, s)
  }

  /** Some number of steps yields just these, and leaves the scanner behind the literal as it was before. */
  lemma ScansLiteral(q: char, s: string, l: State, rest: string) returns (k: nat)
    requires IsQuote(q) && Current(l) == Initial && l.conditions != [] && !l.done
    requires l.input == LiteralText(q, s) + rest
    ensures Emitted(l, k) == LiteralWords(q, s) && Behind(Steps(l, k), l.conditions, rest)
  {
    hide Fires, Steps, Emitted, Pieces, Escaping;
    var more := Escaping(q, s) + [q] + rest;
    assert l.input == [q] + more && l.input[1..] == more && l.input[1] == more[0];
    EscapingStarts(q, s);
    if s == "" {
      k := 1;
      EmptyLiteral(q, l, rest);
    } else {
      var r := if q == '\"' then 30 else 31;
      OpeningFires(q, l, r);
      var l1 := StepBy(l, r, 1);
      assert l1.conditions[..|l1.conditions| - 1] == l.conditions;
      var j := ScanInside(q, s, l1, rest);
      EmittedSplits(l, 1, j);
      assert [] + Pieces(q, s) == Pieces(q, s);
      k := 1 + j;
    }
  }

  lemma LiteralDenotes(q: char, s: string)
    requires IsQuote(q)
    ensures Fold(LiteralWords(q, s)) == Some(s)
  {
    hide Pieces;
    if s != "" { PiecesDenote(q, s); }
  }

  /** The string literal round trip: quote, escape, scan and fold gives the string back, with the
      scanner just behind the literal in the condition it started in. */
  lemma StringRoundTrip(q: char, s: string, l: State, rest: string) returns (k: nat)
    requires IsQuote(q) && Current(l) == Initial && l.conditions != [] && !l.done
    requires l.input == LiteralText(q, s) + rest
    ensures Emitted(l, k) == LiteralWords(q, s) && Fold(Emitted(l, k)) == Some(s)
    ensures Steps(l, k).input == rest && Steps(l, k).conditions == l.conditions && !Steps(l, k).done
  {
    hide Steps, Emitted, Fold, LiteralWords, LiteralText;
    k := ScansLiteral(q, s, l, rest);
    LiteralDenotes(q, s);
  }

  lemma EscapingStarts(q: char, s: string)
    requires IsQuote(q)
    ensures if s == "" then Escaping(q, s) == "" else Escaping(q, s) != "" && Escaping(q, s)[0] != q
  {
  }

  lemma EmptyLiteral(q: char, l: State, rest: string)
    requires IsQuote(q) && Current(l) == Initial && l.conditions != [] && !l.done && l.input == [q, q] + rest
    ensures Emitted(l, 1) == [Word(EMPTY_STRING, [q, q])] && Behind(Steps(l, 1), l.conditions, rest)
  {
    hide Fires, Steps, Emitted, TokenOf, AfterRule, Current;
    var r := if q == '\"' then 28 else 29;
    OpeningFires(q, l, r);
    EmptyRule(r, l.conditions);
    assert l.input[..2] == [q, q] && l.input[2..] == rest;
    var l1 := StepBy(l, r, 2);
  }

  lemma EmptyRule(r: nat, conditions: seq<Condition>)
    requires r == 28 || r == 29
    ensures TokenOf(r) == Some(EMPTY_STRING) && AfterRule(r, conditions) == conditions
  {
  }

  // ----- Escapes -----

  /** What a reader of the program takes an escape for. */
  function Meant(e: string): string {
    if e == "b" then "\U{8}" else if e == "n" then "\n" else if e == "r" then "\r" else if e == "t" then "\t"
    else if e == "'" || e == "\"" || e == "\\" then e
    else if e == "\n" || e == "\r\n" then ""
    else "\\" + e
  }

  /** A backslash and what it escapes, alone between quotes, is one token that means just that. */
  lemma EscapeIsRead(q: char, e: string, l: State, rest: string) returns (k: nat)
    requires IsQuote(q) && CanBeEscaped(e) && Current(l) == Initial && l.conditions != [] && !l.done
    requires l.input == [q] + ['\\'] + e + [q] + rest
    ensures Emitted(l, k) == [Word(ESCAPE, e)] && Fold(Emitted(l, k)) == Some(Meant(e))
    ensures Steps(l, k).input == rest && Steps(l, k).conditions == l.conditions && !Steps(l, k).done
  {
    hide Fires, Steps, Emitted, CanBeEscaped, Unescape, Meant;
    var more := ['\\'] + e + ([q] + rest);
    assert l.input == [q] + more && l.input[1..] == more && l.input[1] == '\\';
    var r := if q == '\"' then 30 else 31;
    OpeningFires(q, l, r);
    var l1 := StepBy(l, r, 1);
    assert l1.conditions[..|l1.conditions| - 1] == l.conditions;
    ScanEscape(q, l1, e, [q] + rest);
    var l3 := Steps(l1, 2);
    ScanClose(q, l3, rest);
    EmittedSplits(l1, 2, 1);
    EmittedSplits(l, 1, 3);
    k := 4;
    assert [] + ([Word(ESCAPE, e)] + []) == [Word(ESCAPE, e)];
    OneEscape(e);
  }

  lemma OneEscape(e: string)
    ensures Fold([Word(ESCAPE, e)]) == Some(Meant(e))
  {
  }

  // ----- In the grammar -----

  predicate IsStringToken(k: nat) {
    k == EMPTY_STRING || k == PLAIN || k == ESCAPE
  }

  /** The derivation that productions 63 to 67 have for string tokens. */
  function StringTree(ks: seq<Token>): Tree
    requires ks != []
  {
    var first := Leaf(ks[0]);
    if |ks| == 1 then
      Branch(if ks[0].kind == EMPTY_STRING then 63 else if ks[0].kind == PLAIN then 64 else 65, [first])
    else Branch(if ks[0].kind == ESCAPE then 66 else 67, [first, StringTree(ks[1..])])
  }

  lemma YieldOfOne(d: Tree)
    ensures YieldAll([d]) == Yield(d)
  {
    assert [d][..0] == [];
  }

  lemma YieldOfTwo(d: Tree, e: Tree)
    ensures YieldAll([d, e]) == Yield(d) + Yield(e)
  {
    assert [d, e][..1] == [d];
    YieldOfOne(d);
  }

  lemma {:induction false} StringTreeDerives(number: string -> Syntax.Number, t: Table<Value>, ks: seq<Token>)
    requires IsForGrammar(number, t) && Fold(WordsOf(ks)).Some?
    ensures ks != []
    ensures var d := StringTree(ks); Derivation(t, d) && Root(t, d) == QUOTED_STRING && Yield(d) == ks
  {
    hide Unescape, ProductionAt;
    assert |WordsOf(ks)| == |ks|;
    assert WordsOf(ks)[0] == Word(ks[0].kind, ks[0].text);
    assert WordsOf(ks)[1..] == WordsOf(ks[1..]);
    StringProductions();
    if |ks| == 1 {
      YieldOfOne(Leaf(ks[0]));
    } else {
      StringTreeDerives(number, t, ks[1..]);
      YieldOfTwo(Leaf(ks[0]), StringTree(ks[1..]));
      assert ks == [ks[0]] + ks[1..];
      var d := StringTree(ks);
      assert Roots(t, d.children) == [ks[0].kind, QUOTED_STRING];
    }
  }

  lemma StringProductions()
    ensures ProductionAt(63) == Production(QUOTED_STRING, [EMPTY_STRING])
    ensures ProductionAt(64) == Production(QUOTED_STRING, [PLAIN])
    ensures ProductionAt(65) == Production(QUOTED_STRING, [ESCAPE])
    ensures ProductionAt(66) == Production(QUOTED_STRING, [ESCAPE, QUOTED_STRING])
    ensures ProductionAt(67) == Production(QUOTED_STRING, [PLAIN, QUOTED_STRING])
  {
  }

  lemma OnlyStringProductions(p: nat)
    ensures ProductionAt(p).lhs == QUOTED_STRING ==> 63 <= p <= 67
    ensures !IsStringToken(ProductionAt(p).lhs)
  {
  }

  /** Whatever derivation string tokens have, its meaning by the semantic actions is their fold. */
  lemma {:induction false} MeaningFolds(number: string -> Syntax.Number, t: Table<Value>, d: Tree, before: Token,
                                        below: Loc)
    requires IsForGrammar(number, t) && d.Branch? && Derivation(t, d) && Root(t, d) == QUOTED_STRING
    requires forall i | 0 <= i < |Yield(d)| :: IsStringToken(Yield(d)[i].kind)
    ensures match Fold(WordsOf(Yield(d))) case Some(s) => Meaning(t, d, before, below).0 == Text(s) case None => false
    decreases d
  {
    hide Unescape, ActAt, ProductionAt, Fold, WordsOf, Meaning;
    var p := d.production;
    OnlyStringProductions(p);
    StringProductions();
    assert Roots(t, d.children) == ProductionAt(p).rhs;
    var first := d.children[0];
    assert Root(t, first) == Roots(t, d.children)[0];
    if first.Branch? {
      OnlyStringProductions(first.production);
      assert false;
    }
    var k := first.token;
    if p <= 65 {
      assert d.children == [first];
      OneStringToken(number, t, p, k, before, below);
    } else {
      var second := d.children[1];
      assert d.children == [first, second] && Root(t, second) == Roots(t, d.children)[1];
      assert Yield(d) == YieldAll([first, second]);
      StringTokensOf(first, second);
      IsBranch(t, second);
      MeaningFolds(number, t, second, k, k.loc);
      MoreStringTokens(number, t, p, k, second, before, below);
      FoldFirst(Yield(d), Yield(second));
    }
  }

  lemma StringTokensOf(first: Tree, second: Tree)
    requires first.Leaf? && forall i | 0 <= i < |YieldAll([first, second])| ::
          IsStringToken(YieldAll([first, second])[i].kind)
    ensures var ks := YieldAll([first, second]); ks != [] && ks[0] == first.token && ks[1..] == Yield(second)
    ensures forall i | 0 <= i < |Yield(second)| :: IsStringToken(Yield(second)[i].kind)
  {
    YieldOfTwo(first, second);
    var ks, more := YieldAll([first, second]), Yield(second);
    assert ks == [first.token] + more;
    assert forall i | 0 <= i < |more| :: more[i] == ks[i + 1];
  }

  lemma IsBranch(t: Table<Value>, d: Tree)
    requires Root(t, d) == QUOTED_STRING && forall i | 0 <= i < |Yield(d)| :: IsStringToken(Yield(d)[i].kind)
    ensures d.Branch?
  {
    LeafIsItsToken(t, d);
    hide Yield, Root;
  }

  lemma LeafIsItsToken(t: Table<Value>, d: Tree)
    ensures d.Leaf? ==> |Yield(d)| == 1 && Yield(d)[0].kind == Root(t, d)
  {
  }

  lemma MeaningOfLeaf(number: string -> Syntax.Number, t: Table<Value>, k: Token, before: Token, below: Loc)
    requires IsForGrammar(number, t)
    ensures MeaningAll(t, [Leaf(k)], before, below) == ([Text(k.text)], [k.loc]) && YieldAll([Leaf(k)]) == [k]
  {
    var ds := [Leaf(k)];
    YieldOfOne(Leaf(k));
    assert ds[..0] == [] && MeaningAll(t, ds[..0], before, below) == ([], []);
    assert [] + [Text(k.text)] == [Text(k.text)] && [] + [k.loc] == [k.loc];
  }

  lemma FoldFirst(ks: seq<Token>, more: seq<Token>)
    requires ks != [] && ks[1..] == more && (ks[0].kind == PLAIN || ks[0].kind == ESCAPE)
    requires Fold(WordsOf(more)).Some?
    ensures Fold(WordsOf(ks)) ==
            Some((if ks[0].kind == PLAIN then ks[0].text else Unescape(ks[0].text)) + Fold(WordsOf(more)).value)
  {
    hide Unescape;
    assert WordsOf(ks)[1..] == WordsOf(more);
  }

  lemma OneStringToken(number: string -> Syntax.Number, t: Table<Value>, p: nat, k: Token, before: Token, below: Loc)
    requires IsForGrammar(number, t) && 63 <= p <= 65 && ProductionAt(p).rhs == [k.kind]
    requires p == 63 ==> k.kind == EMPTY_STRING
    requires p == 64 ==> k.kind == PLAIN
    requires p == 65 ==> k.kind == ESCAPE
    ensures var d := Branch(p, [Leaf(k)]);
            var v := Meaning(t, d, before, below).0;
            Yield(d) == [k] && v.Text? && Fold(WordsOf([k])) == Some(v.text)
  {
    hide Unescape, ProductionAt, MeaningAll;
    MeaningOfLeaf(number, t, k, before, below);
    assert WordsOf([k]) == [Word(k.kind, k.text)];
  }

  lemma MoreStringTokens(number: string -> Syntax.Number, t: Table<Value>, p: nat, k: Token, second: Tree,
                         before: Token, below: Loc)
    requires IsForGrammar(number, t) && 66 <= p <= 67 && |ProductionAt(p).rhs| == 2
    requires Meaning(t, second, k, k.loc).0.Text?
    ensures Meaning(t, Branch(p, [Leaf(k), second]), before, below).0 ==
            Text((if p == 66 then Unescape(k.text) else k.text) + Meaning(t, second, k, k.loc).0.text)
  {
    hide Unescape, ProductionAt;
    var ds := [Leaf(k), second];
    assert ds[..1] == [Leaf(k)];
    MeaningOfLeaf(number, t, k, before, below);
    assert MeaningAll(t, ds, before, below).0 == [Text(k.text)] + [Meaning(t, second, k, k.loc).0];
    assert [Text(k.text)] + [Meaning(t, second, k, k.loc).0] == [Text(k.text), Meaning(t, second, k, k.loc).0];
  }

  /** So the tokens scanned from an escaped string derive from the grammar's string literals, and mean just
      the string: with the soundness of the driver, whatever certified table parses them. */
  lemma StringMeans(number: string -> Syntax.Number, t: Table<Value>, q: char, s: string, l: State, rest: string)
      returns (k: nat)
    requires IsForGrammar(number, t)
    requires IsQuote(q) && Current(l) == Initial && l.conditions != [] && !l.done
    requires l.input == LiteralText(q, s) + rest
    ensures Steps(l, k).input == rest && Steps(l, k).conditions == l.conditions
    ensures forall ks: seq<Token> | WordsOf(ks) == Emitted(l, k) ::
              && ks != [] && Derivation(t, StringTree(ks)) && Root(t, StringTree(ks)) == QUOTED_STRING &&
                 Yield(StringTree(ks)) == ks
    ensures forall d: Tree, before, below | Derivation(t, d) && Root(t, d) == QUOTED_STRING &&
        WordsOf(Yield(d)) == Emitted(l, k) ::
              Meaning(t, d, before, below).0 == Text(s)
  {
    hide Fold, Steps, Emitted, Meaning, Derivation, IsForGrammar, StringTree;
    k := StringRoundTrip(q, s, l, rest);
    forall ks: seq<Token> | WordsOf(ks) == Emitted(l, k)
      ensures ks != [] && Derivation(t, StringTree(ks)) && Root(t, StringTree(ks)) == QUOTED_STRING &&
          Yield(StringTree(ks)) == ks
    {
      StringTreeDerives(number, t, ks);
    }
    forall d: Tree, before, below | Derivation(t, d) && Root(t, d) == QUOTED_STRING &&
        WordsOf(Yield(d)) == Emitted(l, k)
      ensures Meaning(t, d, before, below).0 == Text(s)
    {
      FoldsToStringTokens(Yield(d));
      IsBranch(t, d);
      MeaningFolds(number, t, d, before, below);
    }
  }

  lemma {:induction false} FoldsToStringTokens(ks: seq<Token>)
    requires Fold(WordsOf(ks)).Some?
    ensures forall i | 0 <= i < |ks| :: IsStringToken(ks[i].kind)
  {
    hide Unescape;
    if ks != [] {
      assert WordsOf(ks)[0] == Word(ks[0].kind, ks[0].text);
      assert WordsOf(ks)[1..] == WordsOf(ks[1..]);
      if |ks| > 1 { FoldsToStringTokens(ks[1..]); }
      assert forall i | 0 < i < |ks| :: ks[i] == ks[1..][i - 1];
    }
  }
}

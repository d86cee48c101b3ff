/** What the scanner keeps over any number of steps, and why it always gets to a token. */
module LexerRuns {
  import opened Options
  import opened Characters
  import opened LRParser
  import opened Lexer

  /** A carriage return at the end of `a` and its line feed at the start of `b`. */
  predicate SplitsPair(a: string, b: string) {
    a != "" && b != "" && a[|a| - 1] == '\r' && b[0] == '\n'
  }

  /** What has been matched and what is left make up the source; the line number counts the line
      terminators matched so far and the current place ends on the next line. */
  ghost predicate Inv(l: State, source: string) {
    && l.matched + l.input == source
    && l.line == Lines(l.matched)
    && l.place.lastLine == l.line + 1
    && !SplitsPair(l.matched, l.input)
    && l.conditions != [] && l.conditions[0] == Initial
  }

  lemma {:induction false} LinesSplit(a: string, b: string)
    requires !SplitsPair(a, b)
    ensures Lines(a + b) == Lines(a) + Lines(b)
  {
    if a == "" {
      assert a + b == b;
    } else if a[0] == '\r' && |a| > 1 && a[1] == '\n' {
      assert (a + b)[2..] == a[2..] + b;
      LinesSplit(a[2..], b);
    } else {
      assert (a + b)[1..] == a[1..] + b;
      LinesSplit(a[1..], b);
    }
  }

  /** A line feed ends a line, and so does a carriage return, with the line feed behind it or without; nothing else
      does.  With LinesSplit this says how many lines a text ends. */
  lemma LineEnds(c: char)
    ensures Lines("\n") == Lines("\r") == Lines("\r\n") == 1 && (c != '\n' && c != '\r' ==> Lines([c]) == 0)
    ensures Lines("") == 0
  {
    assert "\n"[1..] == "" && "\r"[1..] == "" && "\r\n"[2..] == "" && [c][1..] == "";
  }

  /** What follows the last line feed or carriage return, if there is one. */
  lemma {:induction false} LastLineIs(s: string)
    ensures var n := |s| - |LastLine(s)|;
            && 0 <= n && s[n..] == LastLine(s) && '\n' !in LastLine(s) && '\r' !in LastLine(s)
            && (n > 0 ==> s[n - 1] == '\n' || s[n - 1] == '\r')
  {
    if s != "" && s[|s| - 1] != '\n' && s[|s| - 1] != '\r' {
      var t := s[..|s| - 1];
      LastLineIs(t);
      assert s == t + [s[|s| - 1]];
    }
  }

  lemma {:induction false} RunIs(p: char -> bool, s: string, n: nat)
    requires n <= |s| && (forall i | 0 <= i < n :: p(s[i])) && (n < |s| ==> !p(s[n]))
    ensures RunLength(p, s) == n
  {
  }

  /** No rule matches up to a carriage return and stops short of its line feed. */
  lemma MatchKeepsPairs(r: nat, s: string)
    ensures Match(r, s).Some? ==> !SplitsPair(s[..Match(r, s).value], s[Match(r, s).value..])
  {
    hide Match;
    if r <= 2 || 35 <= r <= 37 {
      RunsKeepPairs(r, s);
    } else if 38 <= r <= 40 {
      NumbersEndInWords(r, s);
    } else {
      SpellingsKeepPairs(r, s);
    }
  }

  lemma RunsKeepPairs(r: nat, s: string)
    requires r <= 2 || 35 <= r <= 37
    ensures Match(r, s).Some? ==> !SplitsPair(s[..Match(r, s).value], s[Match(r, s).value..])
  {
    hide RunLength, CommentEnd, LineComment, BlockComment, OneOrMore, Escaped, SplitsPair;
    if r <= 1 {
      CommentsKeepPairs(s);
    } else if r == 2 {
      BlanksKeepPairs(s);
    } else if r == 35 {
      EscapesKeepPairs(s);
    } else {
      StringsKeepPairs(s, if r == 36 then '\"' else '\'');
    }
  }

  lemma CommentsKeepPairs(s: string)
    ensures var n := LineComment(s); n.Some? ==> n.value <= |s| && !SplitsPair(s[..n.value], s[n.value..])
    ensures var n := BlockComment(s); n.Some? ==> n.value <= |s| && !SplitsPair(s[..n.value], s[n.value..])
  {
    hide RunLength, CommentEnd;
    if LineComment(s).Some? { assert s[2..][LineComment(s).value - 2..] == s[LineComment(s).value..]; }
  }

  lemma BlanksKeepPairs(s: string)
    ensures var n := OneOrMore(IsSpace, s); n.Some? ==> n.value <= |s| && !SplitsPair(s[..n.value], s[n.value..])
  {
    hide RunLength;
  }

  lemma EscapesKeepPairs(s: string)
    ensures var n := Escaped(s); n.Some? ==> n.value <= |s| && !SplitsPair(s[..n.value], s[n.value..])
  {
  }

  lemma StringsKeepPairs(s: string, q: char)
    requires q == '\"' || q == '\''
    ensures var n := if q == '\"' then RunLength(c => c != '\"' && c != '\\', s)
                     else RunLength(c => c != '\'' && c != '\\', s);
            n <= |s| && !SplitsPair(s[..n], s[n..])
  {
    hide RunLength;
  }

  /** What is spelled in one way only holds no line end. */
  lemma SpellingsKeepPairs(r: nat, s: string)
    requires 3 <= r && !(35 <= r <= 40)
    ensures Match(r, s).Some? ==> !SplitsPair(s[..Match(r, s).value], s[Match(r, s).value..])
  {
    hide Boundary, IsWord;
  }

  lemma NumbersEndInWords(r: nat, s: string)
    requires r == 38 || r == 39 || r == 40
    ensures Match(r, s).Some? ==> var n := Match(r, s).value; 0 < n <= |s| && IsWord(s[n - 1])
  {
    hide RunLength, AfterExponent, AfterFraction, Boundary, Digits;
  }

  /** Only strings and the end of the input can match emptily. */
  lemma EmptyMatches(r: nat, s: string)
    ensures Match(r, s) == Some(0) ==> r == 58 || r == 36 || r == 37
    ensures Match(r, s) == Some(0) && r == 58 ==> s == ""
  {
    NumbersNonEmpty(s);
    hide RunLength, CommentEnd, FloatNumber, IntNumber, Literal, Keyword, IsSpace;
  }

  lemma NumbersNonEmpty(s: string)
    ensures FloatNumber(s) != Some(0) && IntNumber(s) != Some(0)
  {
  }

  /** The index of the rule found: it matches and none before it does. */
  lemma {:induction false} FirstMatchIndex(rules: seq<nat>, s: string, i: nat) returns (k: nat)
    requires i <= |rules|
    ensures match FirstMatch(rules, s, i)
            case Some(r) =>
              i <= k < |rules| && r == rules[k] && Match(r, s).Some? &&
              forall j | i <= j < k :: Match(rules[j], s).None?
            case None => forall j | i <= j < |rules| :: Match(rules[j], s).None?
    decreases |rules| - i
  {
    hide Match;
    k := i;
    if i < |rules| && Match(rules[i], s).None? { k := FirstMatchIndex(rules, s, i + 1); }
  }

  lemma {:induction false} FirstMatchIs(rules: seq<nat>, s: string, i: nat, k: nat)
    requires i <= k < |rules| && Match(rules[k], s).Some? && forall j | i <= j < k :: Match(rules[j], s).None?
    ensures FirstMatch(rules, s, i) == Some(rules[k])
    decreases k - i
  {
    hide Match;
    if i < k { FirstMatchIs(rules, s, i + 1, k); }
  }

  /** The rule a step uses consumes input unless there is none: inside a string, the run of plain
      characters is tried last. */
  lemma StepConsumes(c: Condition, s: string)
    ensures match FirstMatch(Rules(c), s)
            case Some(r) => Match(r, s).Some? && (s != "" ==> Match(r, s).value > 0) && (s == "" ==> TokenOf(r).Some?)
            case None => true
  {
    var k := FirstMatchIndex(Rules(c), s, 0);
    hide Match, TokenOf, FirstMatch, Rules;
    if FirstMatch(Rules(c), s).Some? { RuleConsumes(c, s, k, Rules(c)[k]); }
  }

  lemma RuleConsumes(c: Condition, s: string, k: nat, r: nat)
    requires k < |Rules(c)| && r == Rules(c)[k] && Match(r, s).Some? &&
        forall j | 0 <= j < k :: Match(Rules(c)[j], s).None?
    ensures (s != "" ==> Match(r, s).value > 0) && (s == "" ==> TokenOf(r).Some?)
  {
    hide Match, TokenOf, Rules;
    EmptyMatches(r, s);
    if s == "" { AtTheEnd(r); } else { PlainConsumes(s); }
    if r == 36 || r == 37 { PlainComesLast(c, k); }
  }

  lemma PlainComesLast(c: Condition, k: nat)
    requires k < |Rules(c)| && (Rules(c)[k] == 36 || Rules(c)[k] == 37)
    ensures k == 2 && Rules(c)[0] == 32 && Rules(c)[1] == if Rules(c)[2] == 36 then 33 else 34
  {
  }

  lemma PlainConsumes(s: string)
    requires s != ""
    ensures Match(32, s).None? && Match(33, s).None? ==> Match(36, s).Some? && Match(36, s).value > 0
    ensures Match(32, s).None? && Match(34, s).None? ==> Match(37, s).Some? && Match(37, s).value > 0
  {
  }

  /** A token-less step consumes input, so looking for a token comes to an end; a token step does
      too, but for one at the end of the input. */
  lemma NextProgresses(l: State)
    ensures var (a, l') := Next(l);
            && (a.Nothing? ==> |l'.input| < |l.input|)
            && (a.Kind? && a.kind != END ==> |l'.input| < |l.input| || (l'.input == l.input && !l.done && l'.done))
  {
    StepConsumes(Current(l), l.input);
    var first := FirstMatch(Rules(Current(l)), l.input);
    if first.Some? { MatchFits(first.value, l.input); }
    hide Match, FirstMatch, Rules, TokenOf, Lines, ColumnAfter;
  }

  lemma AtTheEnd(r: nat)
    requires Match(r, "").Some?
    ensures TokenOf(r).Some?
  {
  }

  /** One step keeps the bookkeeping, and its place starts where the last one ended. */
  lemma NextKeeps(l: State, source: string)
    requires Inv(l, source)
    ensures var (a, l') := Next(l);
            && Inv(l', source)
            && (l'.matched != l.matched ==>
                  l'.place.firstLine == l.place.lastLine && l'.place.firstColumn == l.place.lastColumn)
  {
    var first := FirstMatch(Rules(Current(l)), l.input);
    if !l.done && first.Some? && Match(first.value, l.input).Some? {
      var r := first.value;
      MatchFits(r, l.input);
      MatchKeepsPairs(r, l.input);
      var n := Match(r, l.input).value;
      ConsumeKeeps(l, source, r, n);
    }
  }

  lemma ConsumeKeeps(l: State, source: string, r: nat, n: nat)
    requires Inv(l, source) && n <= |l.input| && !SplitsPair(l.input[..n], l.input[n..])
    ensures Inv(Consume(l, r, n), source)
  {
    hide Lines, ColumnAfter, AfterRule;
    var m := l.input[..n];
    assert l.input == m + l.input[n..];
    assert m != "" ==> m[0] == l.input[0] && (l.matched + m)[|l.matched + m| - 1] == m[|m| - 1];
    LinesSplit(l.matched, m);
    BottomStays(r, l.conditions);
    if m == "" {
      assert l.matched + m == l.matched && l.input[n..] == l.input;
    }
  }

  lemma BottomStays(r: nat, conditions: seq<Condition>)
    requires conditions != []
    ensures var after := AfterRule(r, conditions); after != [] && after[0] == conditions[0]
  {
  }

  // ----- Columns -----

  predicate HasSeparator(s: string) {
    exists i :: 0 <= i < |s| && IsSeparator(s[i])
  }

  lemma {:induction false} LastLineSplit(a: string, b: string)
    ensures LastLine(a + b) == if Lines(b) == 0 then LastLine(a) + b else LastLine(b)
    decreases |b|
  {
    if b == "" {
      assert a + b == a && LastLine(a) + b == LastLine(a);
    } else {
      var n := |b| - 1;
      assert (a + b)[..|a + b| - 1] == a + b[..n] && (a + b)[|a + b| - 1] == b[n];
      LastLineSplit(a, b[..n]);
      LinesOfLonger(b);
      if b[n] != '\n' && b[n] != '\r' && Lines(b) == 0 {
        assert LastLine(a) + b[..n] + [b[n]] == LastLine(a) + b;
      }
    }
  }

  /** Whether there is a line terminator does not depend on a last character that is none. */
  lemma {:induction false} LinesOfLonger(b: string)
    requires b != ""
    ensures Lines(b) == 0 <==> Lines(b[..|b| - 1]) == 0 && b[|b| - 1] != '\n' && b[|b| - 1] != '\r'
    decreases |b|
  {
    if |b| > 1 {
      assert b[1..][..|b| - 2] == b[..|b| - 1][1..];
      LinesOfLonger(b[1..]);
    }
  }

  /** The column after a match is right exactly when no line or paragraph separator stands on the last
      of several lines matched. */
  lemma ColumnIsRightIff(before: string, m: string)
    ensures ColumnAfter(m, |LastLine(before)|) == |LastLine(before + m)| <==>
        Lines(m) == 0 || !HasSeparator(LastLine(m))
  {
    LastLineSplit(before, m);
    var last := LastLine(m);
    NoTerminatorInLastLine(m);
    var n := RunLength(c => !IsLineEnd(c), last);
    if n < |last| { assert IsSeparator(last[n]); }
  }

  lemma {:induction false} NoTerminatorInLastLine(m: string)
    ensures forall i | 0 <= i < |LastLine(m)| :: LastLine(m)[i] != '\n' && LastLine(m)[i] != '\r' && LastLine(m)[i] in m
    decreases |m|
  {
    if m != "" { NoTerminatorInLastLine(m[..|m| - 1]); }
  }

  // ----- Any number of steps -----

  function Steps(l: State, k: nat): State
    decreases k
  {
    if k == 0 then l else Steps(Next(l).1, k - 1)
  }

  lemma {:induction false} StepsKeep(l: State, source: string, k: nat)
    requires Inv(l, source)
    ensures Inv(Steps(l, k), source)
    decreases k
  {
    hide Inv, Next;
    if k > 0 {
      NextKeeps(l, source);
      StepsKeep(Next(l).1, source, k - 1);
    }
  }

  /** Lexer bookkeeping, from the start of a source and after any number of steps; columns are right
      too when the source has no separators. */
  lemma LexerBookkeeping(source: string, k: nat)
    ensures var l := Steps(Init(source), k);
            && l.matched + l.input == source && l.line == Lines(l.matched) && l.place.lastLine == l.line + 1
            && (!HasSeparator(source) ==> IsInColumn(l))
  {
    StepsKeep(Init(source), source, k);
    if !HasSeparator(source) { StepsKeepColumns(Init(source), source, k); }
  }

  /** The column is the number of characters behind the last line terminator. */
  predicate IsInColumn(l: State) {
    l.place.lastColumn == |LastLine(l.matched)|
  }

  /** What the next step matches. */
  function Taken(l: State): string {
    var l' := Next(l).1;
    if |l.matched| <= |l'.matched| then l'.matched[|l.matched|..] else ""
  }

  lemma NextTakes(l: State)
    ensures var l' := Next(l).1;
            l'.matched == l.matched + Taken(l) && l'.place.lastColumn == ColumnAfter(Taken(l), l.place.lastColumn)
  {
    hide Match, FirstMatch, Rules, TokenOf, AfterRule;
    NothingTaken(l.place.lastColumn);
    var first := FirstMatch(Rules(Current(l)), l.input);
    if !l.done && first.Some? && Match(first.value, l.input).Some? {
      MatchFits(first.value, l.input);
      var n := Match(first.value, l.input).value;
      assert (l.matched + l.input[..n])[|l.matched|..] == l.input[..n];
    } else {
      assert l.matched[|l.matched|..] == "" && l.matched + "" == l.matched;
    }
  }

  lemma NothingTaken(column: nat)
    ensures ColumnAfter("", column) == column
  {
  }

  /** One step: a match on one line leaves the column as right as it was, one over several makes it right or wrong. */
  lemma NextIsInColumnIff(l: State)
    ensures IsInColumn(Next(l).1) <==>
        if Lines(Taken(l)) == 0 then IsInColumn(l) else !HasSeparator(LastLine(Taken(l)))
  {
    hide Next, Taken;
    NextTakes(l);
    LastLineSplit(l.matched, Taken(l));
    ColumnIsRightIff(l.matched, Taken(l));
  }

  /** The last match over several lines among the next `k`. */
  function LastBreak(l: State, k: nat): Option<string>
    decreases k
  {
    if k == 0 then None
    else
      match LastBreak(Next(l).1, k - 1)
      case Some(m) => Some(m)
      case None => if Lines(Taken(l)) > 0 then Some(Taken(l)) else None
  }

  lemma {:induction false} StepsAreInColumnIff(l: State, k: nat)
    ensures IsInColumn(Steps(l, k)) <==>
        (match LastBreak(l, k) case Some(m) => !HasSeparator(LastLine(m)) case None => IsInColumn(l))
    decreases k
  {
    hide Next, IsInColumn, Lines, Taken, HasSeparator, LastLine;
    if k > 0 {
      NextIsInColumnIff(l);
      StepsAreInColumnIff(Next(l).1, k - 1);
    }
  }

  /** Over any run from the start of a source, the column is right if and only if the last match over several lines
      has no line or paragraph separator on its last line. */
  lemma ColumnsAreRightIff(source: string, k: nat)
    ensures IsInColumn(Steps(Init(source), k)) <==>
        (match LastBreak(Init(source), k) case Some(m) => !HasSeparator(LastLine(m)) case None => true)
  {
    StepsAreInColumnIff(Init(source), k);
  }

  /** A run that goes wrong: after a line feed and a line separator the column is 0, though the line has a
      character. */
  lemma SeparatorShiftsColumns()
    ensures var l := Next(Init("\n\U{2028}")).1;
            l.matched == "\n\U{2028}" && l.place.lastColumn == 0 && |LastLine(l.matched)| == 1
  {
    var s := "\n\U{2028}";
    assert s[1..] == [s[1]] && s[..1] == [s[0]] && s[2..] == "" && s[..2] == s;
    assert LastLine(s) == [s[1]];
    BlanksMatch(s);
    hide FirstMatch, Match, Rules;
    FirstMatchIs(Rules(Initial), s, 0, 2);
  }

  lemma BlanksMatch(s: string)
    requires s == "\n\U{2028}"
    ensures Match(0, s).None? && Match(1, s).None? && Match(2, s) == Some(2)
    ensures |Rules(Initial)| > 2 && Rules(Initial)[0] == 0 && Rules(Initial)[1] == 1 && Rules(Initial)[2] == 2
  {
    assert s[..2][0] == s[0] && s[1..] == [s[1]] && s[1..][1..] == "";
    assert RunLength(IsSpace, s[1..]) == 1;
  }

  /** In a source without separators, where columns are right. */
  ghost predicate InColumn(l: State, source: string) {
    Inv(l, source) && !HasSeparator(source) && IsInColumn(l)
  }

  lemma {:induction false} StepsKeepColumns(l: State, source: string, k: nat)
    requires InColumn(l, source)
    ensures InColumn(Steps(l, k), source)
    decreases k
  {
    hide InColumn, Next;
    if k > 0 {
      NextKeepsColumn(l, source);
      StepsKeepColumns(Next(l).1, source, k - 1);
    }
  }

  lemma NextKeepsColumn(l: State, source: string)
    requires InColumn(l, source)
    ensures InColumn(Next(l).1, source)
  {
    NextKeeps(l, source);
    var first := FirstMatch(Rules(Current(l)), l.input);
    if !l.done && first.Some? && Match(first.value, l.input).Some? {
      MatchFits(first.value, l.input);
      var m := l.input[..Match(first.value, l.input).value];
      hide Match, FirstMatch;
      NoTerminatorInLastLine(m);
      assert forall c | c in m :: c in source;
      assert !HasSeparator(LastLine(m));
      ColumnIsRightIff(l.matched, m);
    }
  }

  // ----- Tokens -----

  /** The next token: steps until one yields something. */
  function Lex(l: State): (Answer, State)
    decreases |l.input|
  {
    NextProgresses(l);
    var (a, l') := Next(l);
    if a.Nothing? then Lex(l') else (a, l')
  }

  lemma {:induction false} LexProgresses(l: State)
    ensures var (a, l') := Lex(l);
            && !a.Nothing? && |l'.input| <= |l.input|
            && (a.Kind? && a.kind != END ==> |l'.input| < |l.input| || (l'.input == l.input && !l.done && l'.done))
    decreases |l.input|
  {
    NextProgresses(l);
    var (a, l') := Next(l);
    if a.Nothing? { LexProgresses(l'); }
  }

  /** The whole token list, or nothing on a lexical error: every source is scanned to its end. */
  function Tokens(l: State): Option<seq<Token>>
    decreases |l.input|, !l.done
  {
    LexProgresses(l);
    var (a, l') := Lex(l);
    match a
    case Kind(k) =>
      if k == END then Some([])
      else
        (match Tokens(l')
         case None => None
         case Some(ks) => Some([Token(k, l'.text, l'.line, l'.place)] + ks))
    case _ => None
  }
}

/** Scanner and parser in a row: what holds of the programs that texts are, for any certified table of the
    grammar.
 */
module Pipeline {
  import Spellings
  import opened Options
  import opened Syntax
  import opened LRParser
  import opened LRSoundness
  import opened Grammar
  import opened Trees
  import opened Rendering
  import Lexer
  import LexerRuns

  /** The program a text is, if it is one: a statement sequence. */
  function Compile(t: Table<Value>, ghost m: Certificate, text: string): Option<Node>
    requires Valid(t, m)
  {
    match LexerRuns.Tokens(Lexer.Init(text))
    case None => None
    case Some(ks) =>
      match Parse(t, m, ks)
      case None => None
      case Some(v) => if v.Statements? then Some(Sequence(v.nodes)) else None
  }

  // ----- What the scanner yields -----

  lemma RuleIsProper(r: nat, s: string, c: Lexer.Condition)
    requires Lexer.FirstMatch(Lexer.Rules(c), s) == Some(r) && Lexer.TokenOf(r).Some?
    requires Lexer.Match(r, s).Some? && Lexer.Match(r, s).value <= |s|
    ensures IsProper(Lexer.TokenOf(r).value, s[..Lexer.Match(r, s).value])
  {
    hide Lexer.FirstMatch, Spellings.IsName, Spellings.IsNumeral, Lexer.Rules, Lexer.Match, IsProper;
    if r == 38 {
      NameIsWhole(s, c);
      NameOrNumberIsProper(r, s[..Lexer.Match(r, s).value]);
    } else if r == 39 || r == 40 {
      NumberIsProper(r, s);
      NameOrNumberIsProper(r, s[..Lexer.Match(r, s).value]);
    } else if 3 <= r <= 12 || 20 <= r <= 23 {
      KeywordIsProper(r, s);
    } else {
      MarkIsProper(r, s);
    }
  }

  lemma NameOrNumberIsProper(r: nat, t: string)
    requires (r == 38 && Spellings.IsName(t)) || ((r == 39 || r == 40) && Spellings.IsNumeral(t))
    ensures Lexer.TokenOf(r).Some? && IsProper(Lexer.TokenOf(r).value, t)
  {
    hide Spellings.IsName, Spellings.IsNumeral, KeywordOf;
  }

  lemma NumberIsProper(r: nat, s: string)
    requires (r == 39 || r == 40) && Lexer.Match(r, s).Some? && Lexer.Match(r, s).value <= |s|
    ensures Spellings.IsNumeral(s[..Lexer.Match(r, s).value])
  {
    hide Lexer.FloatNumber, Lexer.IntNumber, Spellings.IsNumeral;
    NumberMatches(s);
    hide Lexer.Match;
    if r == 39 { NumeralIsWhole(s); } else { IntegerIsWhole(s); }
  }

  lemma NumberMatches(s: string)
    ensures Lexer.Match(39, s) == Lexer.FloatNumber(s) && Lexer.Match(40, s) == Lexer.IntNumber(s)
  {
    hide Lexer.FloatNumber, Lexer.IntNumber;
  }

  lemma IntegerIsWhole(s: string)
    requires Lexer.IntNumber(s).Some?
    ensures var n := Lexer.IntNumber(s).value; Lexer.IntNumber(s[..n]) == Some(n) && Spellings.IsNumeral(s[..n])
  {
    hide Spellings.IsNumeral;
    var n := Lexer.IntNumber(s).value;
    DigitsOfPrefix(s, n, 0);
    NumeralIff(s[..n]);
  }

  lemma KeywordIsProper(r: nat, s: string)
    requires (3 <= r <= 12 || 20 <= r <= 23) && Lexer.Match(r, s).Some? && Lexer.Match(r, s).value <= |s|
    ensures Lexer.TokenOf(r).Some? && IsProper(Lexer.TokenOf(r).value, s[..Lexer.Match(r, s).value])
  {
    MatchOfKeyword(r, s);
    KeywordMatch(r, s);
    KeywordToken(r);
    hide Lexer.Match, Lexer.TokenOf, Spellings.IsName, Spellings.IsNumeral, KeywordOf, KeywordRule, IsKeyword, MarkRule;
  }

  lemma KeywordMatch(r: nat, s: string)
    requires (3 <= r <= 12 || 20 <= r <= 23) && Lexer.Match(r, s).Some?
    ensures Lexer.Match(r, s) == Some(|KeywordOf(r)|)
  {
  }

  lemma KeywordToken(r: nat)
    requires 3 <= r <= 12 || 20 <= r <= 23
    ensures Lexer.TokenOf(r).Some?
    ensures var k := Lexer.TokenOf(r).value;
            IsKeyword(k) && KeywordRule(k) == r && !IsPhrase(k) && k != NAME && k != 57 && k != 58 &&
                !IsOperatorToken(k)
  {
  }

  lemma MarkIsProper(r: nat, s: string)
    requires Lexer.Match(r, s).Some? && Lexer.Match(r, s).value <= |s| && Lexer.TokenOf(r).Some?
    requires !(38 <= r <= 40) && !(3 <= r <= 12 || 20 <= r <= 23)
    ensures IsProper(Lexer.TokenOf(r).value, s[..Lexer.Match(r, s).value])
  {
    MarkToken(r);
    var k := Lexer.TokenOf(r).value;
    if MarkRule(k).Some? { MarkMatch(r, k, s); }
    hide Lexer.Match, Lexer.TokenOf, Spellings.IsName, Spellings.IsNumeral, KeywordOf, KeywordRule, IsKeyword, MarkRule;
  }

  lemma MarkToken(r: nat)
    requires Lexer.TokenOf(r).Some? && !(38 <= r <= 40) && !(3 <= r <= 12 || 20 <= r <= 23)
    ensures var k := Lexer.TokenOf(r).value;
            && !IsKeyword(k) && !IsPhrase(k) && k != NAME && k != 57 && k != 58
            && (MarkRule(k).Some? ==> MarkRule(k).value.0 == r) && (IsOperatorToken(k) ==> MarkRule(k).Some?)
  {
  }

  lemma MarkMatch(r: nat, k: nat, s: string)
    requires MarkRule(k).Some? && MarkRule(k).value.0 == r && Lexer.Match(r, s).Some?
    ensures Lexer.Match(r, s).value == |MarkRule(k).value.1| <= |s|
    ensures s[..|MarkRule(k).value.1|] == MarkRule(k).value.1
  {
  }

  lemma NextIsProper(l: Lexer.State)
    ensures var (a, l') := Lexer.Next(l); a.Kind? && a.kind != END ==> IsProper(a.kind, l'.text)
  {
    hide Lexer.Match, Lexer.TokenOf, Lexer.Lines, Lexer.ColumnAfter, IsProper, Lexer.AfterRule, Lexer.Rules;
    var first := Lexer.FirstMatch(Lexer.Rules(Lexer.Current(l)), l.input);
    if !l.done && first.Some? && Lexer.Match(first.value, l.input).Some? {
      Lexer.MatchFits(first.value, l.input);
      if Lexer.TokenOf(first.value).Some? { RuleIsProper(first.value, l.input, Lexer.Current(l)); }
    }
  }

  lemma {:induction false} LexIsProper(l: Lexer.State)
    ensures var (a, l') := LexerRuns.Lex(l); a.Kind? && a.kind != END ==> IsProper(a.kind, l'.text)
    decreases |l.input|
  {
    hide Lexer.Next, IsProper;
    NextIsProper(l);
    LexerRuns.NextProgresses(l);
    var (a, l') := Lexer.Next(l);
    if a.Nothing? { LexIsProper(l'); }
  }

  lemma {:induction false} TokensAreProper(l: Lexer.State)
    ensures var ks := LexerRuns.Tokens(l);
            ks.Some? ==> forall i | 0 <= i < |ks.value| :: IsProper(ks.value[i].kind, ks.value[i].text)
    decreases |l.input|, !l.done
  {
    hide LexerRuns.Lex, IsProper;
    LexIsProper(l);
    LexerRuns.LexProgresses(l);
    var (a, l') := LexerRuns.Lex(l);
    if a.Kind? && a.kind != END { TokensAreProper(l'); }
  }

  lemma EofEndsInput(r: nat, s: string)
    requires Lexer.TokenOf(r) == Some(EOF) && Lexer.Match(r, s).Some?
    ensures s == ""
  {
  }

  lemma NextIsDone(l: Lexer.State)
    ensures Lexer.Next(l).0 == Lexer.Kind(EOF) ==> Lexer.Next(l).1.done
  {
    hide Lexer.Match, Lexer.TokenOf, Lexer.Lines, Lexer.ColumnAfter, Lexer.AfterRule;
    LexerRuns.NextProgresses(l);
    var first := Lexer.FirstMatch(Lexer.Rules(Lexer.Current(l)), l.input);
    if !l.done && first.Some? && Lexer.Match(first.value, l.input).Some? && Lexer.TokenOf(first.value) == Some(EOF) {
      EofEndsInput(first.value, l.input);
    }
  }

  lemma {:induction false} LexIsDone(l: Lexer.State)
    ensures LexerRuns.Lex(l).0 == Lexer.Kind(EOF) ==> LexerRuns.Lex(l).1.done
    decreases |l.input|
  {
    hide Lexer.Next;
    NextIsDone(l);
    LexerRuns.NextProgresses(l);
    if Lexer.Next(l).0.Nothing? { LexIsDone(Lexer.Next(l).1); }
  }

  /** The end of the source comes last among its tokens. */
  lemma {:induction false} EofIsLast(l: Lexer.State)
    ensures var ks := LexerRuns.Tokens(l);
            ks.Some? ==> forall i | 0 <= i < |ks.value| - 1 :: ks.value[i].kind != EOF
    decreases |l.input|, !l.done
  {
    hide LexerRuns.Lex;
    LexIsDone(l);
    LexerRuns.LexProgresses(l);
    var (a, l') := LexerRuns.Lex(l);
    if a.Kind? && a.kind != END {
      EofIsLast(l');
      if a.kind == EOF { DoneEnds(l'); }
    }
  }

  lemma DoneEnds(l: Lexer.State)
    requires l.done
    ensures LexerRuns.Tokens(l) == Some([])
  {
  }

  // ----- What the parser builds -----

  ghost predicate AreProper(ks: seq<Token>) {
    forall i | 0 <= i < |ks| :: IsProper(ks[i].kind, ks[i].text)
  }

  lemma AreProperSplit(a: seq<Token>, b: seq<Token>)
    requires AreProper(a + b)
    ensures AreProper(a) && AreProper(b)
  {
    hide IsProper;
    assert forall i | 0 <= i < |a| :: (a + b)[i] == a[i];
    assert forall i | 0 <= i < |b| :: (a + b)[|a| + i] == b[i];
  }

  lemma LeafHasSort(number: string -> Number, t: Table<Value>, k: Token)
    requires IsForGrammar(number, t) && IsProper(k.kind, k.text)
    ensures HasSort(number, k.kind, t.leaf(k))
  {
    hide Spellings.IsName, Spellings.IsNumeral;
  }

  /** A name or a numeral is a token of its own, and the last one when it is reduced. */
  lemma TokenIsLast(number: string -> Number, t: Table<Value>, ds: seq<Tree>, before: Token, k: nat)
    requires IsForGrammar(number, t) && Roots(t, ds) == [k] && AreProper(YieldAll(ds))
    requires k == NAME || k == 57 || k == 58
    ensures IsProper(k, LastOf(YieldAll(ds), before).text)
  {
    hide IsProper, IsPhrase;
    assert |ds| == 1 && Root(t, ds[0]) == Roots(t, ds)[0] == k;
    if ds[0].Branch? {
      NoneYieldsToken(ds[0].production, k);
      assert false;
    }
    assert YieldAll(ds) == [] + [ds[0].token];
    assert YieldAll(ds)[0] == ds[0].token;
  }

  lemma NoneYieldsToken(p: nat, k: nat)
    requires k == NAME || k == 57 || k == 58
    ensures ProductionAt(p).lhs != k
  {
  }

  /** A derivation means a value of its sort. */
  lemma {:induction false} MeaningHasSort(number: string -> Number, t: Table<Value>, d: Tree, before: Token, below: Loc)
    requires IsForGrammar(number, t) && Derivation(t, d) && AreProper(Yield(d))
    ensures HasSort(number, Root(t, d), Meaning(t, d, before, below).0)
    decreases d, 0
  {
    hide ActAt, ProductionAt, HasSort, IsProper;
    match d
    case Leaf(k) =>
      assert Yield(d)[0] == k;
      LeafHasSort(number, t, k);
    case Branch(p, ds) =>
      MeaningsHaveSorts(number, t, ds, before, below);
      var (vs, ls) := MeaningAll(t, ds, before, below);
      LastIsFit(number, t, p, ds, before);
      ActHasSort(number, p, vs, LastOf(YieldAll(ds), before));
  }

  lemma LastIsFit(number: string -> Number, t: Table<Value>, p: nat, ds: seq<Tree>, before: Token)
    requires IsForGrammar(number, t) && p < 82 && Roots(t, ds) == ProductionAt(p).rhs && AreProper(YieldAll(ds))
    ensures LastFits(p, LastOf(YieldAll(ds), before))
  {
    hide Spellings.IsName, Spellings.IsNumeral, MarkRule, YieldAll, Roots;
    RightSidesOfTokens();
    hide ProductionAt;
    if p == 81 || p == 55 || p == 56 { TokenIsLast(number, t, ds, before, if p == 81 then NAME else p + 2); }
  }

  lemma RightSidesOfTokens()
    ensures ProductionAt(81).rhs == [NAME] && ProductionAt(55).rhs == [57] && ProductionAt(56).rhs == [58]
  {
  }

  lemma {:induction false} MeaningsHaveSorts(number: string -> Number, t: Table<Value>, ds: seq<Tree>, before: Token,
                                             below: Loc)
    requires IsForGrammar(number, t) && AreProper(YieldAll(ds)) && forall i | 0 <= i < |ds| :: Derivation(t, ds[i])
    ensures HaveSorts(number, Roots(t, ds), MeaningAll(t, ds, before, below).0)
    decreases ds
  {
    hide HasSort, Derivation, Meaning, Root, AreProper, IsForGrammar;
    if ds != [] {
      var n := |ds| - 1;
      AreProperSplit(YieldAll(ds[..n]), Yield(ds[n]));
      MeaningsHaveSorts(number, t, ds[..n], before, below);
      var ls := MeaningAll(t, ds[..n], before, below).1;
      MeaningHasSort(number, t, ds[n], LastOf(YieldAll(ds[..n]), before), LastPlace(ls, below));
    }
  }

  /** Whatever a certified table of the grammar accepts is a tree of the grammar. */
  lemma ParsedIsTree(number: string -> Number, t: Table<Value>, m: Certificate, ks: seq<Token>)
    requires IsForGrammar(number, t) && Valid(t, m) && AreProper(ks) && Parse(t, m, ks).Some?
    ensures var v := Parse(t, m, ks).value;
            v.Thrown? || (v.Statements? && IsProgramTree(number, Sequence(v.nodes)))
  {
    hide Valid, Parse, Derivation, IsStmtTree, Meaning, IsProper;
    var d := ParseIsSound(t, m, ks);
    assert forall i | 0 <= i < |Yield(d)| :: Yield(d)[i] == ks[i];
    MeaningHasSort(number, t, d, NO_TOKEN, START_LOC);
    RootOfProgram(number, t, d);
  }

  lemma RootOfProgram(number: string -> Number, t: Table<Value>, d: Tree)
    requires IsForGrammar(number, t) && d.Branch? && d.production == t.accepting
    ensures Root(t, d) == PROGRAM
  {
  }

  lemma CompiledIsTree(number: string -> Number, t: Table<Value>, m: Certificate, text: string)
    requires IsForGrammar(number, t) && Valid(t, m)
    ensures Compile(t, m, text).Some? ==> IsProgramTree(number, Compile(t, m, text).value)
  {
    hide Valid, LexerRuns.Tokens, Parse, IsForGrammar, IsProgramTree, IsProper;
    TokensAreProper(Lexer.Init(text));
    var ks := LexerRuns.Tokens(Lexer.Init(text));
    if ks.Some? && Parse(t, m, ks.value).Some? { ParsedIsTree(number, t, m, ks.value); }
  }

  /** A program is the meaning of a derivation of all the tokens of its text. */
  lemma TextMeaning(number: string -> Number, t: Table<Value>, m: Certificate, text: string) returns (d: Tree)
    requires IsForGrammar(number, t) && Valid(t, m) && Compile(t, m, text).Some?
    ensures var ks := LexerRuns.Tokens(Lexer.Init(text));
            && ks.Some? && Derivation(t, d) && Root(t, d) == PROGRAM && Yield(d) == ks.value
            && var v := Meaning(t, d, NO_TOKEN, START_LOC).0;
               v.Statements? && Compile(t, m, text).value == Sequence(v.nodes)
  {
    hide Valid, LexerRuns.Tokens, Parse, Derivation, Meaning;
    var l := Lexer.Init(text);
    var ks := LexerRuns.Tokens(l).value;
    EofIsLast(l);
    assert forall i | 0 <= i < |ks| - 1 :: ks[i].kind != EOF;
    EofIsToken(number, t);
    d := ParseReadsEverything(t, m, ks, EOF);
    RootOfProgram(number, t, d);
  }

  lemma EofIsToken(number: string -> Number, t: Table<Value>)
    requires IsForGrammar(number, t)
    ensures EOF != BOTTOM && t.accepting < |t.productions| && t.productions[t.accepting].rhs == [STATEMENTS, EOF]
    ensures forall p | 0 <= p < |t.productions| :: t.productions[p].lhs != EOF
  {
    forall p | 0 <= p < |t.productions| ensures t.productions[p].lhs != EOF { NoneYieldsEof(p); }
  }

  lemma NoneYieldsEof(p: nat)
    ensures ProductionAt(p).lhs != EOF
  {
  }

  // ----- Where tokens stand -----

  /** Configurations that differ in places only. */
  ghost predicate SameButPlaces(c: Config<Value>, c': Config<Value>) {
    && c.oe == c'.oe && c.ue == c'.ue && |c.fe| == |c'.fe|
    && WordsOf(c.rest) == WordsOf(c'.rest) && c.last.text == c'.last.text
  }

  lemma StepIgnoresPlaces(number: string -> Number, t: Table<Value>, c: Config<Value>, c': Config<Value>)
    requires IsForGrammar(number, t) && InStep(c) && InStep(c') && SameButPlaces(c, c')
    ensures match Step(t, c)
            case SyntaxError => Step(t, c').SyntaxError?
            case Return(v) => Step(t, c') == Outcome.Return(v)
            case Continue(d) => Step(t, c').Continue? && SameButPlaces(d, Step(t, c').next)
  {
    hide IsForGrammar, Span, Step, ActionOf, WordsOf;
    SameAhead(t, c, c');
    match ActionOf(t, c)
    case Error =>
      ErrorStops(t, c);
      ErrorStops(t, c');
    case Shift(s) => ShiftIgnoresPlaces(number, t, c, c', s);
    case Reduce(p) => ReduceIgnoresPlaces(number, t, c, c', p);
  }

  lemma SameAhead(t: Table<Value>, c: Config<Value>, c': Config<Value>)
    requires InStep(c) && InStep(c') && SameButPlaces(c, c')
    ensures ActionOf(t, c) == ActionOf(t, c') && |c.rest| == |c'.rest|
    ensures c.rest != [] ==> WordOf(c.rest[0]) == WordOf(c'.rest[0]) && WordsOf(c.rest[1..]) == WordsOf(c'.rest[1..])
  {
    assert |c.rest| == |WordsOf(c.rest)| == |WordsOf(c'.rest)| == |c'.rest|;
    if c.rest != [] {
      assert WordOf(c.rest[0]) == WordsOf(c.rest)[0] == WordOf(c'.rest[0]);
      assert WordsOf(c.rest[1..]) == WordsOf(c.rest)[1..] && WordsOf(c'.rest[1..]) == WordsOf(c'.rest)[1..];
    }
  }

  lemma ErrorStops(t: Table<Value>, c: Config<Value>)
    requires InStep(c) && ActionOf(t, c) == Error
    ensures Step(t, c) == SyntaxError
  {
    hide ActionOf;
  }

  lemma ShiftIgnoresPlaces(number: string -> Number, t: Table<Value>, c: Config<Value>, c': Config<Value>, s: nat)
    requires IsForGrammar(number, t) && InStep(c) && InStep(c') && SameButPlaces(c, c')
    requires ActionOf(t, c) == ActionOf(t, c') == Shift(s) && |c.rest| == |c'.rest|
    requires c.rest != [] ==> WordOf(c.rest[0]) == WordOf(c'.rest[0]) && WordsOf(c.rest[1..]) == WordsOf(c'.rest[1..])
    ensures if c.rest == [] then Step(t, c) == Step(t, c') == SyntaxError
            else Step(t, c).Continue? && Step(t, c').Continue? && SameButPlaces(Step(t, c).next, Step(t, c').next)
  {
    hide ActionOf, WordsOf, Span, ActAt;
  }

  lemma ReduceIgnoresPlaces(number: string -> Number, t: Table<Value>, c: Config<Value>, c': Config<Value>, p: nat)
    requires IsForGrammar(number, t) && InStep(c) && InStep(c') && SameButPlaces(c, c')
    requires ActionOf(t, c) == ActionOf(t, c') == Reduce(p)
    ensures match Step(t, c)
            case SyntaxError => Step(t, c').SyntaxError?
            case Return(v) => Step(t, c') == Outcome.Return(v)
            case Continue(d) => Step(t, c').Continue? && SameButPlaces(d, Step(t, c').next)
  {
    hide IsForGrammar, ActionOf, WordsOf, Span, ActAt, Step;
    if p >= |t.productions| || |t.productions[p].rhs| >= |c.ue| {
      NothingToReduce(t, c, p);
      NothingToReduce(t, c', p);
    } else {
      var n := |t.productions[p].rhs|;
      ReduceSteps(t, c, p);
      ReduceSteps(t, c', p);
      SameValue(number, t, p, c.ue[|c.ue| - n..], c.fe[|c.fe| - n..], c'.fe[|c'.fe| - n..], c.last, c'.last);
    }
  }

  lemma NothingToReduce(t: Table<Value>, c: Config<Value>, p: nat)
    requires InStep(c) && ActionOf(t, c) == Reduce(p)
    requires p >= |t.productions| || |t.productions[p].rhs| >= |c.ue|
    ensures Step(t, c) == SyntaxError
  {
    hide ActionOf;
  }

  /** No semantic action looks at places, nor at more than the text of the last token. */
  lemma SameValue(number: string -> Number, t: Table<Value>, p: nat, vs: seq<Value>, ls: seq<Loc>, ls': seq<Loc>,
                  last: Token, last': Token)
    requires IsForGrammar(number, t) && last.text == last'.text
    ensures t.act(p, vs, ls, last) == t.act(p, vs, ls', last')
  {
    hide ProductionAt, StatementAct, ExpressionAct, Unescape;
  }

  lemma {:induction false} RunIgnoresPlaces(number: string -> Number, t: Table<Value>, m: Certificate,
                                            c: Config<Value>, c': Config<Value>)
    requires IsForGrammar(number, t) && Valid(t, m) && Inv(t, c) && Inv(t, c') && SameButPlaces(c, c')
    ensures Run(t, m, c) == Run(t, m, c')
    decreases |c.rest|, Height(m, c), m.rank(Top(c))
  {
    hide IsForGrammar, Valid, Linked, SameButPlaces, Step;
    StepIgnoresPlaces(number, t, c, c');
    StepKeeps(t, m, c);
    StepKeeps(t, m, c');
    var r := Step(t, c);
    if r.Continue? { RunIgnoresPlaces(number, t, m, r.next, Step(t, c').next); }
  }

  /** Tokens that are spelled alike are parsed alike. */
  lemma ParseIgnoresPlaces(number: string -> Number, t: Table<Value>, m: Certificate, ks: seq<Token>, ks': seq<Token>)
    requires IsForGrammar(number, t) && Valid(t, m) && WordsOf(ks) == WordsOf(ks')
    ensures Parse(t, m, ks) == Parse(t, m, ks')
  {
    hide IsForGrammar, Valid, Run;
    RunIgnoresPlaces(number, t, m, Start(t, ks), Start(t, ks'));
  }
}

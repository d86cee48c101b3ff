/** Sessions of texts, in the whole language: what no text of whatever characters can do. */
module Texts {
  import opened Options
  import opened Syntax
  import opened Environment
  import opened Evaluator
  import Confinement
  import Scope
  import LRParser
  import opened LRSoundness
  import opened Grammar
  import opened Trees
  import opened WholeTable
  import opened Spellings
  import opened Rendering
  import opened Precedence
  import opened Leading
  import opened Phrases
  import PrintingStatements
  import Lexer
  import LexerRuns
  import Pipeline

  /** The program a text is, as the language's own parser reads it. */
  function Program(number: string -> Number, text: string): Option<Node> {
    WholeIsValid(number);
    Pipeline.Compile(Whole(number), WHOLE_PROOF, text)
  }

  /** What a text is read as is the meaning of a derivation of all its tokens by the grammar. */
  lemma ProgramIsDerived(number: string -> Number, text: string) returns (d: Tree)
    requires Program(number, text).Some?
    ensures var ks := LexerRuns.Tokens(Lexer.Init(text));
            var t := Whole(number);
            && ks.Some? && Derivation(t, d) && Root(t, d) == PROGRAM && Yield(d) == ks.value
            && var v := Meaning(t, d, LRParser.NO_TOKEN, LRParser.START_LOC).0;
               v.Statements? && Program(number, text) == Some(Sequence(v.nodes))
  {
    hide LRParser.Valid, Pipeline.Compile, Derivation, Meaning;
    WholeIsValid(number);
    WholeIsForGrammar(number);
    d := Pipeline.TextMeaning(number, Whole(number), WHOLE_PROOF, text);
  }

  /** Any text that is a program is a tree of the grammar. */
  lemma ProgramIsTree(number: string -> Number, text: string)
    ensures Program(number, text).Some? ==> IsProgramTree(number, Program(number, text).value)
  {
    hide LRParser.Valid, Pipeline.Compile, IsProgramTree;
    WholeIsValid(number);
    WholeIsForGrammar(number);
    Pipeline.CompiledIsTree(number, Whole(number), WHOLE_PROOF, text);
  }

  /** So it has the shape that the properties of evaluation are proved for. */
  lemma ProgramIsStatement(number: string -> Number, text: string)
    ensures Program(number, text).Some? ==> IsStmt(Program(number, text).value)
  {
    hide Program, IsStmtTree;
    ProgramIsTree(number, text);
    var p := Program(number, text);
    if p.Some? {
      forall i | 0 <= i < |p.value.stmts| ensures IsStmt(p.value.stmts[i]) { StmtTreeIsStmt(number, p.value.stmts[i]); }
    }
  }

  /** The tokens, but for the end of the file, have a derivation that is grouped by precedence and means `n`. */
  ghost predicate Derives(number: string -> Number, ks: seq<LRParser.Token>, n: Node) {
    exists d: Tree, eof: LRParser.Token ::
      && DerivesProgram(d) && eof.kind == EOF && ks == Yield(d) + [eof]
      && n.Sequence? && MeaningOf(number, d) == Statements(n.stmts)
  }

  function MeaningOf(number: string -> Number, d: Tree): Grammar.Value {
    Meaning(Whole(number), d, LRParser.NO_TOKEN, LRParser.START_LOC).0
  }

  /** The language exactly, derivation by derivation: a text is read as `n` if and only if its tokens have a derivation
      by the grammar that is grouped by precedence and means `n`. */
  lemma ProgramIsGrouped(number: string -> Number, text: string, n: Node)
    ensures Program(number, text) == Some(n) <==>
            LexerRuns.Tokens(Lexer.Init(text)).Some? && Derives(number, LexerRuns.Tokens(Lexer.Init(text)).value, n)
  {
    hide LRParser.Valid, LRParser.Parse, LexerRuns.Tokens, DerivesProgram, Meaning;
    WholeIsValid(number);
    var l := Lexer.Init(text);
    var ks := LexerRuns.Tokens(l);
    if Program(number, text) == Some(n) {
      ParserIff(number, ks.value, Statements(n.stmts));
      var d: Tree, eof: LRParser.Token, rest :|
        DerivesProgram(d) && eof.kind == EOF && ks.value == Yield(d) + [eof] + rest &&
        Statements(n.stmts) == MeaningOf(number, d);
      Pipeline.EofIsLast(l);
      assert ks.value[|Yield(d)|] == eof;
      assert rest == [] && ks.value == Yield(d) + [eof];
    }
    if ks.Some? && Derives(number, ks.value, n) {
      var d: Tree, eof: LRParser.Token :|
        DerivesProgram(d) && eof.kind == EOF && ks.value == Yield(d) + [eof] &&
        MeaningOf(number, d) == Statements(n.stmts);
      assert ks.value == Yield(d) + [eof] + [];
      ParserIff(number, ks.value, Statements(n.stmts));
    }
  }

  /** Any derivation grouped by precedence, written in lexemes, in any spacing is read as what it means. */
  lemma GroupedIsRead(number: string -> Number, d: Tree, ss: seq<Node>, xs: seq<Lexeme>, lead: string,
                      gaps: seq<string>)
    requires DerivesProgram(d) && Says(number, d, Statements(ss)) && Spells(Yield(d), xs)
    requires IsFiller(lead) && |gaps| == |xs| && AreApart(xs, gaps)
    ensures Program(number, lead + Rendered(xs, gaps)) == Some(Sequence(ss))
  {
    hide LRParser.Valid, LRParser.Parse, Words, Rendered, AreApart, IsFiller, IsLexeme, LexerRuns.Tokens,
         DerivesProgram;
    var text := lead + Rendered(xs, gaps);
    var eof := LRParser.Token(EOF, "", 0, LRParser.START_LOC);
    var ks := Yield(d) + [eof];
    ScansWords(Lexer.Init(text), lead, xs, gaps);
    WholeIsForGrammar(number);
    WholeIsValid(number);
    assert ks == Yield(d) + [eof] + [];
    ParserIff(number, ks, Statements(ss));
    assert LRParser.WordsOf(ks) == LRParser.WordsOf(Yield(d)) + [LRParser.Word(EOF, "")];
    Pipeline.ParseIgnoresPlaces(number, Whole(number), WHOLE_PROOF, ks, LexerRuns.Tokens(Lexer.Init(text)).value);
  }

  /** A program, written with the parentheses that precedence calls for and no others. */
  ghost function Written(number: string -> Number, n: Node): Phrase
    requires IsProgramTree(number, n)
  {
    PrintingStatements.StatementList(number, n.stmts)
  }

  /** Every tree of a program is written down so, and read back as itself in any spacing. */
  lemma TreeIsWritten(number: string -> Number, n: Node, lead: string, gaps: seq<string>)
    requires IsProgramTree(number, n)
    requires var xs := Written(number, n).lexemes; IsFiller(lead) && |gaps| == |xs| && AreApart(xs, gaps)
    ensures DerivesProgram(Written(number, n).tree) && NoneSpare(Written(number, n).tree)
    ensures Program(number, lead + Rendered(Written(number, n).lexemes, gaps)) == Some(n)
  {
    hide AreStmtTrees, Rendered, AreApart, IsFiller, Program, Says, Spells, IsDerivation, Grouped, NoneSpare,
         PrintingStatements.StatementList, Symbol;
    PrintingStatements.StatementsAreWritten(number, n.stmts);
    GroupedIsRead(number, Written(number, n).tree, n.stmts, Written(number, n).lexemes, lead, gaps);
  }

  /** The language exactly: a tree is what some text is read as if and only if it is a tree of the grammar. */
  lemma ProgramIff(number: string -> Number, n: Node)
    ensures (exists text :: Program(number, text) == Some(n)) <==> IsProgramTree(number, n)
  {
    hide Program, IsProgramTree, Written;
    forall text | Program(number, text) == Some(n) ensures IsProgramTree(number, n) {
      ProgramIsTree(number, text);
    }
    if IsProgramTree(number, n) {
      var xs := Written(number, n).lexemes;
      SpacesKeepApart(xs);
      NothingFills();
      var gaps := seq(|xs|, i => " ");
      TreeIsWritten(number, n, "", gaps);
      assert Program(number, "" + Rendered(xs, gaps)) == Some(n);
    }
  }

  lemma NothingFills()
    ensures IsFiller("")
  {
  }

  lemma WholeIsForGrammar(number: string -> Number)
    ensures IsForGrammar(number, Whole(number))
  {
    hide ActAt;
  }

  /** The programs among some texts, each with its fuel; a text that is none throws before anything is
      evaluated. */
  function Programs(number: string -> Number, texts: seq<(string, nat)>): seq<(Node, nat)> {
    if texts == [] then []
    else
      var p := Program(number, texts[0].0);
      (if p.Some? then [(p.value, texts[0].1)] else []) + Programs(number, texts[1..])
  }

  lemma {:induction false} ProgramsAreStatements(number: string -> Number, texts: seq<(string, nat)>)
    ensures forall i | 0 <= i < |Programs(number, texts)| :: IsStmt(Programs(number, texts)[i].0)
  {
    hide Program, IsStmt;
    if texts != [] {
      ProgramIsStatement(number, texts[0].0);
      ProgramsAreStatements(number, texts[1..]);
    }
  }

  /** The store after a session of texts. */
  function After(h: Host, pi: Number, number: string -> Number, texts: seq<(string, nat)>): State {
    Session(h, Programs(number, texts), InitialState(pi))
  }

  /** Operator hygiene: after any texts, an operator looked up from any live environment is still the
      builtin it was at the start. */
  lemma OperatorHygiene(h: Host, pi: Number, number: string -> Number, texts: seq<(string, nat)>, env: Env,
                        op: string)
    requires IsOperator(op)
    requires Confinement.Live(After(h, pi, number, texts).frames, env)
    ensures Lookup(After(h, pi, number, texts).frames, env, op) == Some(Builtin(op))
  {
    hide IsStmt, Confinement.Live, Programs, Session;
    ProgramsAreStatements(number, texts);
    Confinement.OperatorHygiene(h, pi, Programs(number, texts), env, op);
  }

  /** Return confinement: after any texts nothing bound holds a return value, and neither an expression
      nor a call of what one evaluates to yields one. */
  lemma ReturnConfinement(h: Host, pi: Number, number: string -> Number, texts: seq<(string, nat)>, e: Node,
                          k: nat)
    requires IsExpr(e)
    ensures var st := After(h, pi, number, texts);
            && (forall a, x | 0 <= a < |st.frames| && x in st.frames[a] ::
               Confinement.HoldsNoReturn(st.frames[a][x].value))
            && var r := Eval(h, e, GLOBAL, st, k);
               r.Ok? ==>
                 Confinement.HoldsNoReturn(r.value) &&
                 forall args, k' | Confinement.GoodValues(args, |r.st.frames|) &&
                     Apply(h, r.value, args, r.st, k').Ok? ::
                   Confinement.HoldsNoReturn(Apply(h, r.value, args, r.st, k').value)
  {
    hide IsStmt, Programs, Session, Eval, Apply, Confinement.HoldsNoReturn;
    ProgramsAreStatements(number, texts);
    Confinement.ReturnConfinement(h, pi, Programs(number, texts), e, k);
  }

  /** Scope soundness: when each of the programs is scoped by the names bound at its start, none fails for
      want of a name. */
  lemma ScopeSoundness(h: Host, pi: Number, number: string -> Number, texts: seq<(string, nat)>, i: nat)
    requires i < |Programs(number, texts)|
    requires var ps := Programs(number, texts);
             forall j | 0 <= j <= i ::
               Scope.Scoped(ps[j].0, Scope.Visible(Session(h, ps[..j], InitialState(pi)).frames, GLOBAL))
    ensures var ps := Programs(number, texts);
            var r := EvalToplevel(h, ps[i].0, Session(h, ps[..i], InitialState(pi)), ps[i].1);
            r.Fail? ==> !r.error.UnboundName?
  {
    hide IsStmt, Programs, Session, Scope.Scoped, Scope.Visible, EvalToplevel;
    ProgramsAreStatements(number, texts);
    Scope.InitialStateIsSound(pi);
    Scope.SessionIsScoped(h, Programs(number, texts), InitialState(pi), i);
  }
}

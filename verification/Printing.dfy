/** Every tree that the grammar's actions build is written down, with only the parentheses that precedence calls for. */
module Printing {
  import opened Syntax
  import opened LRParser
  import opened LRSoundness
  import opened Spellings
  import opened Rendering
  import opened Grammar
  import opened Precedence
  import opened WholeTable
  import T = Trees
  import opened Phrases
  import L = StringLiterals

  // ----- Parentheses -----

  function InParentheses(number: string -> Number, e: Phrase): Phrase {
    Compose(number, 47, [Mark(OPEN), e, Mark(CLOSE)])
  }

  /** A left operand, in parentheses if it is not closed against an operator as tight as `t`. */
  function Closed(number: string -> Number, e: Phrase, t: int): Phrase {
    if Closes(e.tree, t) then e else InParentheses(number, e)
  }

  /** A right operand, in parentheses if it does not open tighter than `h`. */
  function Opened(number: string -> Number, e: Phrase, h: int): Phrase {
    if Opens(e.tree, h) then e else InParentheses(number, e)
  }

  /** An expression without parentheses around it. */
  ghost predicate IsExpression(number: string -> Number, e: Phrase, n: Node) {
    IsWritten(number, e, EXPRESSION, Ast(n)) && !IsParenthesised(e.tree) && !BeginsWithEmptyObject(e.tree)
  }

  lemma ParenthesesAreWritten(number: string -> Number, e: Phrase, n: Node)
    requires IsExpression(number, e, n)
    ensures IsWritten(number, InParentheses(number, e), EXPRESSION, Ast(n))
  {
    hide IsWritten, ActAt, ProductionAt, SymbolRule;
    Parentheses(number, n);
    var parts := [Mark(OPEN), e, Mark(CLOSE)];
    var vs := [Mark(OPEN).value, Ast(n), Mark(CLOSE).value];
    MarkIsWritten(number, OPEN);
    MarkIsWritten(number, CLOSE);
    NoSpareParts(47, parts);
    ComposeIsWritten(number, 47, parts, vs, Ast(n));
  }

  lemma Parentheses(number: string -> Number, n: Node)
    ensures ProductionAt(47) == Production(EXPRESSION, [OPEN, EXPRESSION, CLOSE])
    ensures SymbolRule(OPEN).Some? && SymbolRule(CLOSE).Some? && !IsPhrase(OPEN) && !IsPhrase(CLOSE)
    ensures ActAt(number, 47, [Mark(OPEN).value, Ast(n), Mark(CLOSE).value], NO_TOKEN) == Ast(n)
  {
    assert !AnyThrown([Mark(OPEN).value, Ast(n), Mark(CLOSE).value]);
  }

  /** Where none of the parts is in parentheses, none are spare. */
  lemma NoSpareParts(p: nat, parts: seq<Phrase>)
    requires forall i | 0 <= i < |parts| :: !IsParenthesised(parts[i].tree)
    ensures NoPartSpare(p, Trees(parts))
  {
    hide GroupsParts, IsParenthesised;
  }

  ghost predicate IsClosed(d: Tree, t: int) {
    Closes(d, t) && (IsParenthesised(d) ==> !Closes(d.children[1], t))
  }

  ghost predicate IsOpened(d: Tree, h: int) {
    Opens(d, h) && (IsParenthesised(d) ==> !Opens(d.children[1], h))
  }

  lemma ClosedIsWritten(number: string -> Number, e: Phrase, n: Node, t: int)
    requires IsExpression(number, e, n)
    ensures var o := Closed(number, e, t);
            IsWritten(number, o, EXPRESSION, Ast(n)) && IsClosed(o.tree, t) && !BeginsWithEmptyObject(o.tree)
  {
    hide IsWritten, ActAt, SymbolRule;
    ParenthesesAreWritten(number, e, n);
  }

  lemma OpenedIsWritten(number: string -> Number, e: Phrase, n: Node, h: int)
    requires IsExpression(number, e, n)
    ensures var o := Opened(number, e, h); IsWritten(number, o, EXPRESSION, Ast(n)) && IsOpened(o.tree, h)
  {
    hide IsWritten, ActAt, SymbolRule;
    ParenthesesAreWritten(number, e, n);
  }

  /** Operands in parentheses where they are called for are grouped, and none of the parentheses are spare. */
  lemma OperandsGroup(p: nat, ds: seq<Tree>)
    requires (IsContinued(p) || IsOpen(p)) && |ds| > 1 && (IsContinued(p) && IsOpen(p) ==> |ds| > 2)
    requires IsContinued(p) ==> IsClosed(ds[0], Tightness(Continuation(p)))
    requires IsOpen(p) ==> IsOpened(ds[|ds| - 1], HoldOf(p))
    requires p == 43 ==> !IsOneName(ds[1])
    requires forall i | 0 <= i < |ds| :: IsParenthesised(ds[i]) ==>
               (i == 0 && IsContinued(p)) || (i == |ds| - 1 && IsOpen(p))
    ensures GroupsParts(p, ds) && NoPartSpare(p, ds)
  {
    hide Closes, Opens, HoldOf, Tightness, IsOneName, BeginsWithEmptyObject;
    forall i | 0 <= i < |ds| ensures !IsSpare(p, ds, i) {
    }
  }

  /** An expression put together. */
  lemma ExpressionBy(number: string -> Number, p: nat, parts: seq<Phrase>, vs: seq<Value>, n: Node)
    requires 27 <= p <= 54 && p != 47 && parts != [] && AreWritten(number, parts, ProductionAt(p).rhs, vs)
    requires GroupsParts(p, Trees(parts)) && NoPartSpare(p, Trees(parts)) && ActAt(number, p, vs, NO_TOKEN) == Ast(n)
    requires !BeginsWithEmptyObject(parts[0].tree) && (p == 52 ==> |parts| > 1 && !IsNoPairs(parts[1].tree))
    ensures IsExpression(number, Compose(number, p, parts), n)
  {
    hide IsWritten, ActAt, GroupsParts, IsSpare;
    LeftSideOfExpressions(p);
    hide ProductionAt;
    ComposeIsWritten(number, p, parts, vs, Ast(n));
  }

  lemma LeftSideOfExpressions(p: nat)
    requires 27 <= p <= 54
    ensures ProductionAt(p).lhs == EXPRESSION
  {
  }

  // ----- Operators -----

  function InfixProduction(op: nat): nat
    requires IsBinary(op)
  {
    if op <= 38 then op - 7 else op - 5
  }

  function InfixNode(op: nat, a: Node, b: Node): Node {
    var text := TextOf(Mark(op).value);
    if op == AND || op == OR then BoolOp(text, a, b) else Application(Name(text), [a, b])
  }

  function Infix(number: string -> Number, op: nat, a: Phrase, b: Phrase): Phrase
    requires IsBinary(op)
  {
    Compose(number, InfixProduction(op),
            [Closed(number, a, Level(op)), Mark(op), Opened(number, b, Level(op))])
  }

  lemma InfixFacts(op: nat)
    requires IsBinary(op)
    ensures var p := InfixProduction(op);
            && 27 <= p <= 42 && IsContinued(p) && IsOpen(p) && Tightness(Continuation(p)) == HoldOf(p) == Level(op)
            && ProductionAt(p) == Production(EXPRESSION, [EXPRESSION, op, EXPRESSION])
            && SymbolRule(op).Some? && !IsPhrase(op)
  {
    hide ListProduction, StatementProduction, KeywordOf;
  }

  lemma InfixAct(number: string -> Number, op: nat, a: Node, b: Node)
    requires IsBinary(op) && |ProductionAt(InfixProduction(op)).rhs| == 3
    ensures ActAt(number, InfixProduction(op), [Ast(a), Mark(op).value, Ast(b)], NO_TOKEN) == Ast(InfixNode(op, a, b))
  {
    hide SymbolRule, ProductionAt;
    assert !AnyThrown([Ast(a), Mark(op).value, Ast(b)]);
  }

  lemma InfixIsWritten(number: string -> Number, op: nat, a: Phrase, na: Node, b: Phrase, nb: Node)
    requires IsBinary(op) && IsExpression(number, a, na) && IsExpression(number, b, nb)
    ensures IsExpression(number, Infix(number, op, a, b), InfixNode(op, na, nb))
  {
    hide IsWritten, ActAt, ProductionAt, SymbolRule, Mark, BeginsWithEmptyObject, Level, Tightness,
         HoldOf, InfixNode, IsBinary, Closed, Opened, IsClosed, IsOpened, IsPhrase;
    InfixFacts(op);
    InfixAct(number, op, na, nb);
    ClosedIsWritten(number, a, na, Level(op));
    OpenedIsWritten(number, b, nb, Level(op));
    MarkIsWritten(number, op);
    MarkIsLeaf(op);
    var parts := [Closed(number, a, Level(op)), Mark(op), Opened(number, b, Level(op))];
    OperandsGroup(InfixProduction(op), Trees(parts));
    ExpressionBy(number, InfixProduction(op), parts, [Ast(na), Mark(op).value, Ast(nb)], InfixNode(op, na, nb));
  }

  lemma MarkIsLeaf(k: nat)
    ensures Mark(k).tree.Leaf? && Mark(k).value.Text?
  {
  }

  predicate IsPrefix(op: nat) {
    op == MINUS || op == PLUS || op == NOT
  }

  function PrefixProduction(op: nat): nat {
    if op == MINUS then 32 else if op == PLUS then 33 else 34
  }

  function PrefixNode(op: nat, a: Node): Node {
    Application(Name(TextOf(Mark(op).value)), if op == NOT then [a] else [Lit(Num(Finite(0.0))), a])
  }

  function Prefix(number: string -> Number, op: nat, a: Phrase): Phrase {
    Compose(number, PrefixProduction(op), [Mark(op), Opened(number, a, PREFIX_LEVEL)])
  }

  lemma PrefixFacts(number: string -> Number, op: nat, a: Node)
    requires IsPrefix(op)
    ensures var p := PrefixProduction(op);
            && IsOpen(p) && !IsContinued(p) && HoldOf(p) == PREFIX_LEVEL && !IsPhrase(op)
            && ProductionAt(p) == Production(EXPRESSION, [op, EXPRESSION]) && SymbolRule(op).Some?
            && ActAt(number, p, [Mark(op).value, Ast(a)], NO_TOKEN) == Ast(PrefixNode(op, a))
  {
    assert !AnyThrown([Mark(op).value, Ast(a)]);
  }

  lemma PrefixIsWritten(number: string -> Number, op: nat, a: Phrase, n: Node)
    requires IsPrefix(op) && IsExpression(number, a, n)
    ensures IsExpression(number, Prefix(number, op, a), PrefixNode(op, n))
  {
    hide IsWritten, ActAt, ProductionAt, SymbolRule, Mark, BeginsWithEmptyObject, PrefixNode, Opened, IsOpened,
         IsPhrase;
    PrefixFacts(number, op, n);
    OpenedIsWritten(number, a, n, PREFIX_LEVEL);
    MarkIsWritten(number, op);
    MarkIsLeaf(op);
    var parts := [Mark(op), Opened(number, a, PREFIX_LEVEL)];
    OperandsGroup(PrefixProduction(op), Trees(parts));
    LeafIsNoObject(Mark(op).tree);
    ExpressionBy(number, PrefixProduction(op), parts, [Mark(op).value, Ast(n)], PrefixNode(op, n));
  }

  lemma LeafIsNoObject(d: Tree)
    requires d.Leaf?
    ensures !BeginsWithEmptyObject(d)
  {
  }

  function Conditional(number: string -> Number, a: Phrase, b: Phrase, c: Phrase): Phrase {
    Compose(number, 54, [Closed(number, a, 1), Mark(QUESTION), b, Mark(COLON), Opened(number, c, 0)])
  }

  lemma ConditionalFacts(number: string -> Number, a: Node, b: Node, c: Node)
    ensures ProductionAt(54).rhs == [EXPRESSION, QUESTION, EXPRESSION, COLON, EXPRESSION]
    ensures SymbolRule(QUESTION).Some? && SymbolRule(COLON).Some? && !IsPhrase(QUESTION) && !IsPhrase(COLON)
    ensures Tightness(Continuation(54)) == 1 && HoldOf(54) == 0
    ensures ActAt(number, 54, [Ast(a), Mark(QUESTION).value, Ast(b), Mark(COLON).value, Ast(c)], NO_TOKEN) ==
            Ast(CondExpr(a, b, c))
  {
    assert !AnyThrown([Ast(a), Mark(QUESTION).value, Ast(b), Mark(COLON).value, Ast(c)]);
  }

  lemma ConditionalIsWritten(number: string -> Number, a: Phrase, na: Node, b: Phrase, nb: Node, c: Phrase, nc: Node)
    requires IsExpression(number, a, na) && IsExpression(number, b, nb) && IsExpression(number, c, nc)
    ensures IsExpression(number, Conditional(number, a, b, c), CondExpr(na, nb, nc))
  {
    hide IsWritten, ActAt, ProductionAt, SymbolRule, Mark, BeginsWithEmptyObject, Closed, Opened, IsClosed, IsOpened,
         IsPhrase, Tightness, HoldOf;
    ConditionalFacts(number, na, nb, nc);
    ClosedIsWritten(number, a, na, 1);
    OpenedIsWritten(number, c, nc, 0);
    MarkIsWritten(number, QUESTION);
    MarkIsWritten(number, COLON);
    MarkIsLeaf(QUESTION);
    MarkIsLeaf(COLON);
    var parts := [Closed(number, a, 1), Mark(QUESTION), b, Mark(COLON), Opened(number, c, 0)];
    OperandsGroup(54, Trees(parts));
    ExpressionBy(number, 54, parts, [Ast(na), Mark(QUESTION).value, Ast(nb), Mark(COLON).value, Ast(nc)],
                 CondExpr(na, nb, nc));
  }

  // ----- Names and constants -----

  function NameToken(x: string): Token {
    Token(NAME, x, 0, START_LOC)
  }

  function Ident(x: string): Phrase {
    Phrase(Branch(81, [Leaf(NameToken(x))]), Text(x), [Single(Word(NAME, x))])
  }

  lemma IdentIsWritten(number: string -> Number, x: string)
    requires IsName(x)
    ensures IsWritten(number, Ident(x), IDENTIFIER, Text(x))
  {
    hide IsWritten, IsName;
    NameFacts(number, x);
    TokenIsWritten(number, 81, NameToken(x));
  }

  lemma NameFacts(number: string -> Number, x: string)
    requires IsName(x)
    ensures ProductionAt(81) == Production(IDENTIFIER, [NAME]) && !IsPhrase(NAME) && IsWordOf(Word(NAME, x))
    ensures ActAt(number, 81, [Text(x)], NameToken(x)) == Text(x)
    ensures ProductionAt(49).rhs == [IDENTIFIER] && ActAt(number, 49, [Text(x)], NO_TOKEN) == Ast(Name(x))
  {
    hide IsName;
    assert !AnyThrown([Text(x)]);
  }

  function Variable(number: string -> Number, x: string): Phrase {
    Compose(number, 49, [Ident(x)])
  }

  lemma VariableIsWritten(number: string -> Number, x: string)
    requires IsName(x)
    ensures IsExpression(number, Variable(number, x), Name(x))
  {
    hide IsWritten, ActAt, ProductionAt, IsName;
    NameFacts(number, x);
    IdentIsWritten(number, x);
    var parts := [Ident(x)];
    NoSpareParts(49, parts);
    assert Trees(parts) == [Ident(x).tree];
    ExpressionBy(number, 49, parts, [Text(x)], Name(x));
  }

  /** A constant of one word: its kind, the production for it and what it means. */
  predicate IsConstantWord(k: nat, p: nat, n: Node) {
    (k == TRUE && p == 57 && n == Lit(Bool(true))) || (k == FALSE && p == 58 && n == Lit(Bool(false))) ||
    (k == 61 && p == 59 && n == Lit(Num(NotANumber))) || (k == INFINITY && p == 60 && n == Lit(Num(PosInfinity))) ||
    (k == EMPTY_LIST && p == 62 && n == EmptyListExpr)
  }

  lemma WordFacts(number: string -> Number, k: nat, p: nat, n: Node)
    requires IsConstantWord(k, p, n)
    ensures ProductionAt(p) == Production(CONSTANTS, [k]) && SymbolRule(k).Some? && !IsPhrase(k)
    ensures ActAt(number, p, [Mark(k).value], NO_TOKEN) == Ast(n)
  {
    hide StatementProduction, ExpressionProduction;
    assert !AnyThrown([Mark(k).value]);
  }

  lemma WordIsWritten(number: string -> Number, k: nat, p: nat, n: Node)
    requires IsConstantWord(k, p, n)
    ensures IsWritten(number, Compose(number, p, [Mark(k)]), CONSTANTS, Ast(n))
  {
    hide IsWritten, ActAt, ProductionAt, SymbolRule, Mark, IsPhrase;
    WordFacts(number, k, p, n);
    MarkIsWritten(number, k);
    MarkIsLeaf(k);
    NoSpareParts(p, [Mark(k)]);
    ComposeIsWritten(number, p, [Mark(k)], [Mark(k).value], Ast(n));
  }

  function Constant(number: string -> Number, c: Phrase): Phrase {
    Compose(number, 48, [c])
  }

  lemma ConstantIsWritten(number: string -> Number, c: Phrase, n: Node)
    requires IsWritten(number, c, CONSTANTS, Ast(n))
    ensures IsExpression(number, Constant(number, c), n)
  {
    assert Symbol(c.tree) == CONSTANTS;
    ConstantFacts(number, n, c.tree);
    hide IsWritten, ActAt, ProductionAt, BeginsWithEmptyObject;
    NoSpareParts(48, [c]);
    ExpressionBy(number, 48, [c], [Ast(n)], n);
  }

  lemma ConstantFacts(number: string -> Number, n: Node, d: Tree)
    ensures ProductionAt(48).rhs == [CONSTANTS] && ActAt(number, 48, [Ast(n)], NO_TOKEN) == Ast(n)
    ensures Symbol(d) == CONSTANTS ==> !IsParenthesised(d) && !BeginsWithEmptyObject(d)
  {
    assert !AnyThrown([Ast(n)]);
  }

  function NumeralToken(w: string): Token {
    Token(NUMBER, w, 0, START_LOC)
  }

  function Numeral(number: string -> Number, w: string): Phrase {
    Phrase(Branch(55, [Leaf(NumeralToken(w))]), Ast(Lit(Num(number(w)))), [Single(Word(NUMBER, w))])
  }

  lemma NumeralIsWritten(number: string -> Number, w: string)
    requires IsNumeral(w)
    ensures IsWritten(number, Numeral(number, w), CONSTANTS, Ast(Lit(Num(number(w)))))
  {
    hide IsWritten, IsNumeral;
    NumeralFacts(number, w);
    TokenIsWritten(number, 55, NumeralToken(w));
  }

  lemma NumeralFacts(number: string -> Number, w: string)
    requires IsNumeral(w)
    ensures ProductionAt(55) == Production(CONSTANTS, [NUMBER]) && !IsPhrase(NUMBER) && IsWordOf(Word(NUMBER, w))
    ensures ActAt(number, 55, [Text(w)], NumeralToken(w)) == Ast(Lit(Num(number(w))))
  {
    hide IsNumeral;
    assert !AnyThrown([Text(w)]);
  }

  // ----- Strings -----

  function LiteralTokens(s: string): seq<Token> {
    var ws := L.LiteralWords('\"', s);
    seq(|ws|, i requires 0 <= i < |ws| => Token(ws[i].kind, ws[i].text, 0, START_LOC))
  }

  function StringPhrase(s: string): Phrase {
    var ks := LiteralTokens(s);
    Phrase(if ks == [] then Leaf(NO_TOKEN) else L.StringTree(ks), Text(s), [Quoted('\"', s)])
  }

  function Literal(number: string -> Number, s: string): Phrase {
    Compose(number, 61, [StringPhrase(s)])
  }

  lemma StringIsWritten(number: string -> Number, s: string)
    ensures IsWritten(number, StringPhrase(s), QUOTED_STRING, Text(s)) && !IsParenthesised(StringPhrase(s).tree)
  {
    hide L.LiteralWords, Meaning, Derivation, IsForGrammar, L.Fold, L.StringTree, Grouped, NoneSpare, IsDerivation,
         AreLexemes, IsParenthesised, Yield;
    var ks := LiteralTokens(s);
    var t := Whole(number);
    WholeIsGrammar(number);
    assert WordsOf(ks) == L.LiteralWords('\"', s);
    L.LiteralDenotes('\"', s);
    L.StringTreeDerives(number, t, ks);
    L.FoldsToStringTokens(ks);
    var d := L.StringTree(ks);
    L.IsBranch(t, d);
    forall before, below ensures Meaning(t, d, before, below).0 == Text(s) {
      L.MeaningFolds(number, t, d, before, below);
    }
    StringTreeIsGrouped(ks);
    QuotedSpells(s);
  }

  lemma WholeIsGrammar(number: string -> Number)
    ensures IsForGrammar(number, Whole(number))
  {
    hide ActAt;
  }

  lemma QuotedSpells(s: string)
    ensures Words([Quoted('\"', s)]) == L.LiteralWords('\"', s) && AreLexemes([Quoted('\"', s)])
  {
    hide L.LiteralWords;
    assert Words([Quoted('\"', s)][1..]) == [];
  }

  lemma {:induction false} StringTreeIsGrouped(ks: seq<Token>)
    requires ks != [] && L.Fold(WordsOf(ks)).Some?
    ensures var d := L.StringTree(ks);
            IsDerivation(d) && Symbol(d) == QUOTED_STRING && Grouped(d) && NoneSpare(d) && !IsParenthesised(d)
  {
    hide Unescape, ProductionAt;
    L.StringProductions();
    StringTokensAreNoPhrases();
    assert WordsOf(ks)[0] == WordOf(ks[0]) && WordsOf(ks)[1..] == WordsOf(ks[1..]);
    if |ks| > 1 { StringTreeIsGrouped(ks[1..]); }
  }

  lemma StringTokensAreNoPhrases()
    ensures !IsPhrase(EMPTY_STRING) && !IsPhrase(PLAIN) && !IsPhrase(ESCAPE)
  {
  }

  lemma LiteralIsWritten(number: string -> Number, s: string)
    ensures IsWritten(number, Literal(number, s), CONSTANTS, Ast(Lit(Str(s))))
  {
    hide IsWritten, ActAt, ProductionAt, StringPhrase;
    LiteralFacts(number, s);
    StringIsWritten(number, s);
    NoSpareParts(61, [StringPhrase(s)]);
    ComposeIsWritten(number, 61, [StringPhrase(s)], [Text(s)], Ast(Lit(Str(s))));
  }

  lemma LiteralFacts(number: string -> Number, s: string)
    ensures ProductionAt(61) == Production(CONSTANTS, [QUOTED_STRING])
    ensures ActAt(number, 61, [Text(s)], NO_TOKEN) == Ast(Lit(Str(s)))
  {
    assert !AnyThrown([Text(s)]);
  }

  // ----- Operands -----

  ghost predicate AreExpressions(number: string -> Number, os: seq<Phrase>, es: seq<Node>) {
    |os| == |es| && forall i | 0 <= i < |es| :: IsExpression(number, os[i], es[i])
  }

  function SomeOperands(number: string -> Number, os: seq<Phrase>): Phrase
    requires os != []
  {
    if |os| == 1 then Compose(number, 71, os)
    else Compose(number, 70, [os[0], Mark(COMMA), SomeOperands(number, os[1..])])
  }

  function AllOperands(number: string -> Number, os: seq<Phrase>): Phrase {
    if os == [] then Compose(number, 69, []) else Compose(number, 68, [SomeOperands(number, os)])
  }

  lemma OperandProductions()
    ensures ProductionAt(68) == Production(EXPRESSIONS, [NONEMPTY_EXPRESSIONS])
    ensures ProductionAt(69) == Production(EXPRESSIONS, [])
    ensures ProductionAt(70) == Production(NONEMPTY_EXPRESSIONS, [EXPRESSION, COMMA, NONEMPTY_EXPRESSIONS])
    ensures ProductionAt(71) == Production(NONEMPTY_EXPRESSIONS, [EXPRESSION])
    ensures SymbolRule(COMMA).Some? && !IsPhrase(COMMA)
  {
    hide StatementProduction, ExpressionProduction;
  }

  lemma OperandActs(number: string -> Number, e: Node, es: seq<Node>)
    ensures ActAt(number, 68, [Operands(es)], NO_TOKEN) == Operands(es)
    ensures ActAt(number, 69, [], NO_TOKEN) == Operands([]) && ActAt(number, 71, [Ast(e)], NO_TOKEN) == Operands([e])
    ensures ActAt(number, 70, [Ast(e), Mark(COMMA).value, Operands(es)], NO_TOKEN) == Operands([e] + es)
  {
    hide SymbolRule;
    OperandProductions();
    hide ProductionAt;
    assert !AnyThrown([Ast(e), Mark(COMMA).value, Operands(es)]) && !AnyThrown([Ast(e)]) && !AnyThrown([Operands(es)]);
  }

  lemma {:induction false} SomeOperandsAreWritten(number: string -> Number, os: seq<Phrase>, es: seq<Node>)
    requires AreExpressions(number, os, es) && os != []
    ensures IsWritten(number, SomeOperands(number, os), NONEMPTY_EXPRESSIONS, Operands(es))
    ensures !IsParenthesised(SomeOperands(number, os).tree)
  {
    hide IsWritten, ActAt, ProductionAt, SymbolRule, Mark, IsPhrase, BeginsWithEmptyObject;
    OperandProductions();
    assert IsExpression(number, os[0], es[0]);
    if |os| == 1 {
      OperandActs(number, es[0], []);
      NoSpareParts(71, os);
      ComposeIsWritten(number, 71, os, [Ast(es[0])], Operands(es));
    } else {
      SomeOperandsAreWritten(number, os[1..], es[1..]);
      OperandActs(number, es[0], es[1..]);
      MarkIsWritten(number, COMMA);
      MarkIsLeaf(COMMA);
      var parts := [os[0], Mark(COMMA), SomeOperands(number, os[1..])];
      NoSpareParts(70, parts);
      assert [es[0]] + es[1..] == es;
      ComposeIsWritten(number, 70, parts, [Ast(es[0]), Mark(COMMA).value, Operands(es[1..])], Operands(es));
    }
  }

  lemma AllOperandsAreWritten(number: string -> Number, os: seq<Phrase>, es: seq<Node>)
    requires AreExpressions(number, os, es)
    ensures IsWritten(number, AllOperands(number, os), EXPRESSIONS, Operands(es))
    ensures !IsParenthesised(AllOperands(number, os).tree)
  {
    hide IsWritten, ActAt, ProductionAt, SomeOperands;
    OperandProductions();
    OperandActs(number, EmptyListExpr, es);
    if os == [] {
      NoSpareParts(69, []);
      ComposeIsWritten(number, 69, [], [], Operands([]));
    } else {
      SomeOperandsAreWritten(number, os, es);
      NoSpareParts(68, [SomeOperands(number, os)]);
      ComposeIsWritten(number, 68, [SomeOperands(number, os)], [Operands(es)], Operands(es));
    }
  }

  // ----- Calls -----

  function CallByName(number: string -> Number, x: string, a: Phrase): Phrase {
    Compose(number, 53, [Ident(x), Mark(OPEN), a, Mark(CLOSE)])
  }

  function Call(number: string -> Number, f: Phrase, a: Phrase): Phrase {
    Compose(number, 50, [Mark(OPEN), f, Mark(CLOSE), Mark(OPEN), a, Mark(CLOSE)])
  }

  lemma CallFacts(number: string -> Number, f: Node, x: string, es: seq<Node>)
    ensures ProductionAt(53).rhs == [IDENTIFIER, OPEN, EXPRESSIONS, CLOSE]
    ensures ProductionAt(50).rhs == [OPEN, EXPRESSION, CLOSE, OPEN, EXPRESSIONS, CLOSE]
    ensures SymbolRule(OPEN).Some? && SymbolRule(CLOSE).Some? && !IsPhrase(OPEN) && !IsPhrase(CLOSE)
    ensures var open, close := Mark(OPEN).value, Mark(CLOSE).value;
            && ActAt(number, 53, [Text(x), open, Operands(es), close], NO_TOKEN) == Ast(Application(Name(x), es))
            && ActAt(number, 50, [open, Ast(f), close, open, Operands(es), close], NO_TOKEN) == Ast(Application(f, es))
  {
    var open, close := Mark(OPEN).value, Mark(CLOSE).value;
    assert !AnyThrown([open, Ast(f), close, open, Operands(es), close]);
    assert !AnyThrown([Text(x), open, Operands(es), close]);
  }

  lemma CallByNameIsWritten(number: string -> Number, x: string, os: seq<Phrase>, es: seq<Node>)
    requires IsName(x) && AreExpressions(number, os, es)
    ensures IsExpression(number, CallByName(number, x, AllOperands(number, os)), Application(Name(x), es))
  {
    hide IsWritten, ActAt, ProductionAt, SymbolRule, Mark, IsPhrase, AllOperands, IsName;
    var a := AllOperands(number, os);
    CallFacts(number, Name(x), x, es);
    AllOperandsAreWritten(number, os, es);
    IdentIsWritten(number, x);
    MarkIsWritten(number, OPEN);
    MarkIsWritten(number, CLOSE);
    MarkIsLeaf(OPEN);
    MarkIsLeaf(CLOSE);
    var parts := [Ident(x), Mark(OPEN), a, Mark(CLOSE)];
    NoSpareParts(53, parts);
    ExpressionBy(number, 53, parts, [Text(x), Mark(OPEN).value, Operands(es), Mark(CLOSE).value],
                 Application(Name(x), es));
  }

  lemma CallIsWritten(number: string -> Number, f: Phrase, n: Node, os: seq<Phrase>, es: seq<Node>)
    requires IsExpression(number, f, n) && AreExpressions(number, os, es)
    ensures IsExpression(number, Call(number, f, AllOperands(number, os)), Application(n, es))
  {
    hide IsWritten, ActAt, ProductionAt, SymbolRule, Mark, IsPhrase, AllOperands, BeginsWithEmptyObject;
    var a := AllOperands(number, os);
    CallFacts(number, n, "", es);
    AllOperandsAreWritten(number, os, es);
    MarkIsWritten(number, OPEN);
    MarkIsWritten(number, CLOSE);
    MarkIsLeaf(OPEN);
    MarkIsLeaf(CLOSE);
    LeafIsNoObject(Mark(OPEN).tree);
    var parts := [Mark(OPEN), f, Mark(CLOSE), Mark(OPEN), a, Mark(CLOSE)];
    NoSpareParts(50, parts);
    ExpressionBy(number, 50, parts,
                 [Mark(OPEN).value, Ast(n), Mark(CLOSE).value, Mark(OPEN).value, Operands(es), Mark(CLOSE).value],
                 Application(n, es));
  }

  // ----- Functions -----

  function SomeNames(number: string -> Number, xs: seq<string>): Phrase
    requires xs != []
  {
    if |xs| == 1 then Compose(number, 80, [Ident(xs[0])])
    else Compose(number, 79, [Ident(xs[0]), Mark(COMMA), SomeNames(number, xs[1..])])
  }

  function AllNames(number: string -> Number, xs: seq<string>): Phrase {
    if xs == [] then Compose(number, 78, []) else Compose(number, 77, [SomeNames(number, xs)])
  }

  lemma NameProductions()
    ensures ProductionAt(77) == Production(IDENTIFIERS, [NONEMPTY_IDENTIFIERS])
    ensures ProductionAt(78) == Production(IDENTIFIERS, [])
    ensures ProductionAt(79) == Production(NONEMPTY_IDENTIFIERS, [IDENTIFIER, COMMA, NONEMPTY_IDENTIFIERS])
    ensures ProductionAt(80) == Production(NONEMPTY_IDENTIFIERS, [IDENTIFIER])
    ensures SymbolRule(COMMA).Some? && !IsPhrase(COMMA)
  {
    hide StatementProduction, ExpressionProduction;
  }

  lemma NameActs(number: string -> Number, x: string, xs: seq<string>)
    ensures ActAt(number, 77, [Names(xs)], NO_TOKEN) == Names(xs) && ActAt(number, 78, [], NO_TOKEN) == Names([])
    ensures ActAt(number, 80, [Text(x)], NO_TOKEN) == Names([x])
    ensures ActAt(number, 79, [Text(x), Mark(COMMA).value, Names(xs)], NO_TOKEN) == Names([x] + xs)
  {
    hide SymbolRule;
    NameProductions();
    hide ProductionAt;
    assert !AnyThrown([Text(x), Mark(COMMA).value, Names(xs)]) && !AnyThrown([Text(x)]) && !AnyThrown([Names(xs)]);
  }

  lemma {:induction false} SomeNamesAreWritten(number: string -> Number, xs: seq<string>)
    requires T.AllNames(xs) && xs != []
    ensures var l := SomeNames(number, xs);
            && IsWritten(number, l, NONEMPTY_IDENTIFIERS, Names(xs)) && !IsParenthesised(l.tree)
            && (IsOneName(l.tree) <==> |xs| == 1)
  {
    hide IsWritten, ActAt, ProductionAt, SymbolRule, Mark, IsPhrase, IsName;
    NameProductions();
    IdentIsWritten(number, xs[0]);
    if |xs| == 1 {
      NameActs(number, xs[0], []);
      NoSpareParts(80, [Ident(xs[0])]);
      ComposeIsWritten(number, 80, [Ident(xs[0])], [Text(xs[0])], Names(xs));
    } else {
      SomeNamesAreWritten(number, xs[1..]);
      NameActs(number, xs[0], xs[1..]);
      MarkIsWritten(number, COMMA);
      MarkIsLeaf(COMMA);
      var parts := [Ident(xs[0]), Mark(COMMA), SomeNames(number, xs[1..])];
      NoSpareParts(79, parts);
      assert [xs[0]] + xs[1..] == xs;
      ComposeIsWritten(number, 79, parts, [Text(xs[0]), Mark(COMMA).value, Names(xs[1..])], Names(xs));
    }
  }

  lemma AllNamesAreWritten(number: string -> Number, xs: seq<string>)
    requires T.AllNames(xs)
    ensures var l := AllNames(number, xs);
            && IsWritten(number, l, IDENTIFIERS, Names(xs)) && !IsParenthesised(l.tree)
            && (IsOneName(l.tree) <==> |xs| == 1)
  {
    hide IsWritten, ActAt, ProductionAt, SomeNames, IsName;
    NameProductions();
    NameActs(number, "", xs);
    if xs == [] {
      NoSpareParts(78, []);
      ComposeIsWritten(number, 78, [], [], Names([]));
    } else {
      SomeNamesAreWritten(number, xs);
      NoSpareParts(77, [SomeNames(number, xs)]);
      ComposeIsWritten(number, 77, [SomeNames(number, xs)], [Names(xs)], Names(xs));
    }
  }

  /** A function of one parameter needs no parentheses around it. */
  function Lambda(number: string -> Number, ps: seq<string>, e: Phrase): Phrase {
    if |ps| == 1 then Compose(number, 44, [Variable(number, ps[0]), Mark(ARROW), Opened(number, e, 0)])
    else Compose(number, 43, [Mark(OPEN), AllNames(number, ps), Mark(CLOSE), Mark(ARROW), Opened(number, e, 0)])
  }

  lemma LambdaFacts(number: string -> Number, x: string, ps: seq<string>, n: Node)
    ensures ProductionAt(44).rhs == [EXPRESSION, ARROW, EXPRESSION]
    ensures ProductionAt(43).rhs == [OPEN, IDENTIFIERS, CLOSE, ARROW, EXPRESSION]
    ensures SymbolRule(OPEN).Some? && SymbolRule(CLOSE).Some? && SymbolRule(ARROW).Some?
    ensures !IsPhrase(OPEN) && !IsPhrase(CLOSE) && !IsPhrase(ARROW)
    ensures ActAt(number, 44, [Ast(Name(x)), Mark(ARROW).value, Ast(n)], NO_TOKEN) == Ast(FunDef([x], Node.Return(n)))
    ensures ActAt(number, 43, [Mark(OPEN).value, Names(ps), Mark(CLOSE).value, Mark(ARROW).value, Ast(n)], NO_TOKEN) ==
            Ast(FunDef(ps, Node.Return(n)))
  {
    assert !AnyThrown([Ast(Name(x)), Mark(ARROW).value, Ast(n)]);
    assert !AnyThrown([Mark(OPEN).value, Names(ps), Mark(CLOSE).value, Mark(ARROW).value, Ast(n)]);
  }

  lemma OneParameterIsWritten(number: string -> Number, x: string, e: Phrase, n: Node)
    requires IsName(x) && IsExpression(number, e, n)
    ensures IsExpression(number, Lambda(number, [x], e), FunDef([x], Node.Return(n)))
  {
    hide IsWritten, ActAt, ProductionAt, SymbolRule, Mark, IsPhrase, IsName, Opened, IsOpened, BeginsWithEmptyObject,
         Variable, Closes;
    LambdaFacts(number, x, [x], n);
    VariableIsWritten(number, x);
    VariableIsClosed(number, x);
    OpenedIsWritten(number, e, n, 0);
    MarkIsWritten(number, ARROW);
    MarkIsLeaf(ARROW);
    var parts := [Variable(number, x), Mark(ARROW), Opened(number, e, 0)];
    OperandsGroup(44, Trees(parts));
    ExpressionBy(number, 44, parts, [Ast(Name(x)), Mark(ARROW).value, Ast(n)], FunDef([x], Node.Return(n)));
  }

  lemma VariableIsClosed(number: string -> Number, x: string)
    ensures IsClosed(Variable(number, x).tree, 0)
  {
    hide ActAt;
  }

  lemma ParametersAreWritten(number: string -> Number, ps: seq<string>, e: Phrase, n: Node)
    requires T.AllNames(ps) && |ps| != 1 && IsExpression(number, e, n)
    ensures IsExpression(number, Lambda(number, ps, e), FunDef(ps, Node.Return(n)))
  {
    hide IsWritten, ActAt, ProductionAt, SymbolRule, Mark, IsPhrase, IsName, Opened, IsOpened, BeginsWithEmptyObject,
         AllNames, IsOneName;
    LambdaFacts(number, "", ps, n);
    AllNamesAreWritten(number, ps);
    OpenedIsWritten(number, e, n, 0);
    MarkIsWritten(number, ARROW);
    MarkIsWritten(number, OPEN);
    MarkIsWritten(number, CLOSE);
    MarkIsLeaf(ARROW);
    MarkIsLeaf(OPEN);
    MarkIsLeaf(CLOSE);
    LeafIsNoObject(Mark(OPEN).tree);
    var parts := [Mark(OPEN), AllNames(number, ps), Mark(CLOSE), Mark(ARROW), Opened(number, e, 0)];
    OperandsGroup(43, Trees(parts));
    ExpressionBy(number, 43, parts, [Mark(OPEN).value, Names(ps), Mark(CLOSE).value, Mark(ARROW).value, Ast(n)],
                 FunDef(ps, Node.Return(n)));
  }

  // ----- Properties, arrays and objects -----

  /** Nothing of them is kept, so any will do. */
  const ANY_NAME := "x"

  function Property(number: string -> Number): Phrase {
    Compose(number, 46, [Variable(number, ANY_NAME), Mark(DOT), Ident(ANY_NAME)])
  }

  function EmptyArray(number: string -> Number): Phrase {
    Compose(number, 51, [Mark(OPEN_BRACKET), AllOperands(number, []), Mark(CLOSE_BRACKET)])
  }

  function Object(number: string -> Number): Phrase {
    Compose(number, 52, [Mark(OPEN_BRACE), OnePair(number), Mark(CLOSE_BRACE)])
  }

  function OnePair(number: string -> Number): Phrase {
    var pair := Compose(number, 76, [Ident(ANY_NAME), Mark(COLON), Variable(number, ANY_NAME)]);
    Compose(number, 72, [Compose(number, 75, [pair])])
  }

  lemma AnyNameIsName()
    ensures IsName(ANY_NAME)
  {
    assert SMALL[23] == 'x';
    hide CAPITALS, DIGITS;
  }

  lemma PropertyFacts(number: string -> Number, x: string)
    ensures ProductionAt(46).rhs == [EXPRESSION, DOT, IDENTIFIER] && SymbolRule(DOT).Some? && !IsPhrase(DOT)
    ensures ActAt(number, 46, [Ast(Name(x)), Mark(DOT).value, Text(x)], NO_TOKEN) ==
            Ast(Unsupported("property_access"))
  {
    assert !AnyThrown([Ast(Name(x)), Mark(DOT).value, Text(x)]);
  }

  lemma PropertyIsWritten(number: string -> Number)
    ensures IsExpression(number, Property(number), Unsupported("property_access"))
  {
    hide IsWritten, ActAt, ProductionAt, SymbolRule, Mark, IsPhrase, IsName, BeginsWithEmptyObject, Variable, Closes,
         ANY_NAME;
    var x := ANY_NAME;
    AnyNameIsName();
    PropertyFacts(number, x);
    VariableIsWritten(number, x);
    VariableIsAnyClosed(number, x);
    IdentIsWritten(number, x);
    MarkIsWritten(number, DOT);
    MarkIsLeaf(DOT);
    var parts := [Variable(number, x), Mark(DOT), Ident(x)];
    OperandsGroup(46, Trees(parts));
    ExpressionBy(number, 46, parts, [Ast(Name(x)), Mark(DOT).value, Text(x)], Unsupported("property_access"));
  }

  lemma VariableIsAnyClosed(number: string -> Number, x: string)
    ensures IsClosed(Variable(number, x).tree, Tightness(Continuation(46)))
  {
    hide ActAt;
  }

  lemma BracketFacts(number: string -> Number, es: seq<Node>)
    ensures ProductionAt(51).rhs == [OPEN_BRACKET, EXPRESSIONS, CLOSE_BRACKET]
    ensures ProductionAt(52).rhs == [OPEN_BRACE, PAIRS, CLOSE_BRACE]
    ensures SymbolRule(OPEN_BRACKET).Some? && SymbolRule(CLOSE_BRACKET).Some?
    ensures SymbolRule(OPEN_BRACE).Some? && SymbolRule(CLOSE_BRACE).Some?
    ensures !IsPhrase(OPEN_BRACKET) && !IsPhrase(CLOSE_BRACKET) && !IsPhrase(OPEN_BRACE) && !IsPhrase(CLOSE_BRACE)
    ensures ActAt(number, 51, [Mark(OPEN_BRACKET).value, Operands(es), Mark(CLOSE_BRACKET).value], NO_TOKEN) ==
            Ast(Unsupported("array_expression"))
    ensures ActAt(number, 52, [Mark(OPEN_BRACE).value, Pairs, Mark(CLOSE_BRACE).value], NO_TOKEN) ==
            Ast(Unsupported("object_expression"))
  {
    assert !AnyThrown([Mark(OPEN_BRACKET).value, Operands(es), Mark(CLOSE_BRACKET).value]);
    assert !AnyThrown([Mark(OPEN_BRACE).value, Pairs, Mark(CLOSE_BRACE).value]);
  }

  lemma ArrayIsWritten(number: string -> Number)
    ensures IsExpression(number, EmptyArray(number), Unsupported("array_expression"))
  {
    hide IsWritten, ActAt, ProductionAt, SymbolRule, Mark, IsPhrase, AllOperands;
    BracketFacts(number, []);
    AllOperandsAreWritten(number, [], []);
    MarkIsWritten(number, OPEN_BRACKET);
    MarkIsWritten(number, CLOSE_BRACKET);
    MarkIsLeaf(OPEN_BRACKET);
    MarkIsLeaf(CLOSE_BRACKET);
    var parts := [Mark(OPEN_BRACKET), AllOperands(number, []), Mark(CLOSE_BRACKET)];
    NoSpareParts(51, parts);
    ExpressionBy(number, 51, parts, [Mark(OPEN_BRACKET).value, Operands([]), Mark(CLOSE_BRACKET).value],
                 Unsupported("array_expression"));
  }

  lemma PairFacts(number: string -> Number, x: string)
    ensures ProductionAt(76) == Production(PAIR, [IDENTIFIER, COLON, EXPRESSION])
    ensures ProductionAt(75) == Production(NONEMPTY_PAIRS, [PAIR])
    ensures ProductionAt(72) == Production(PAIRS, [NONEMPTY_PAIRS]) && SymbolRule(COLON).Some? && !IsPhrase(COLON)
    ensures ActAt(number, 76, [Text(x), Mark(COLON).value, Ast(Name(x))], NO_TOKEN) == Pairs
    ensures ActAt(number, 75, [Pairs], NO_TOKEN) == Pairs && ActAt(number, 72, [Pairs], NO_TOKEN) == Pairs
  {
    hide StatementProduction, ExpressionProduction;
    assert !AnyThrown([Text(x), Mark(COLON).value, Ast(Name(x))]) && !AnyThrown([Pairs]);
  }

  lemma PairIsWritten(number: string -> Number)
    ensures IsWritten(number, OnePair(number), PAIRS, Pairs) && !IsParenthesised(OnePair(number).tree)
  {
    hide IsWritten, ActAt, ProductionAt, SymbolRule, Mark, IsPhrase, IsName, Variable, ANY_NAME, BeginsWithEmptyObject;
    var x := ANY_NAME;
    AnyNameIsName();
    PairFacts(number, x);
    VariableIsWritten(number, x);
    IdentIsWritten(number, x);
    MarkIsWritten(number, COLON);
    MarkIsLeaf(COLON);
    var parts := [Ident(x), Mark(COLON), Variable(number, x)];
    NoSpareParts(76, parts);
    ComposeIsWritten(number, 76, parts, [Text(x), Mark(COLON).value, Ast(Name(x))], Pairs);
    var pair := Compose(number, 76, parts);
    NoSpareParts(75, [pair]);
    ComposeIsWritten(number, 75, [pair], [Pairs], Pairs);
    var pairs := Compose(number, 75, [pair]);
    NoSpareParts(72, [pairs]);
    ComposeIsWritten(number, 72, [pairs], [Pairs], Pairs);
  }

  lemma ObjectIsWritten(number: string -> Number)
    ensures IsExpression(number, Object(number), Unsupported("object_expression"))
  {
    PairsAreThere(number);
    hide IsWritten, ActAt, ProductionAt, SymbolRule, Mark, IsPhrase, OnePair;
    BracketFacts(number, []);
    PairIsWritten(number);
    MarkIsWritten(number, OPEN_BRACE);
    MarkIsWritten(number, CLOSE_BRACE);
    MarkIsLeaf(OPEN_BRACE);
    MarkIsLeaf(CLOSE_BRACE);
    var parts := [Mark(OPEN_BRACE), OnePair(number), Mark(CLOSE_BRACE)];
    NoSpareParts(52, parts);
    ExpressionBy(number, 52, parts, [Mark(OPEN_BRACE).value, Pairs, Mark(CLOSE_BRACE).value],
                 Unsupported("object_expression"));
  }

  lemma PairsAreThere(number: string -> Number)
    ensures !IsNoPairs(OnePair(number).tree)
  {
    hide ActAt;
  }

  // ----- All expressions -----

  function OperatorToken(op: string): (k: nat)
    ensures IsBinary(k)
  {
    if op == "+" then PLUS else if op == "-" then MINUS else if op == "*" then 36 else if op == "/" then 37
    else if op == "%" then 38 else if op == "&&" then AND else if op == "||" then OR else if op == "===" then 42
    else if op == "!==" then 43 else if op == ">" then 44 else if op == "<" then 45 else if op == ">=" then 46
    else 47
  }

  lemma OperatorsAreSpelled(op: string)
    requires T.IsInfixName(op) || op == "&&" || op == "||"
    ensures var k := OperatorToken(op);
            Mark(k).value == Text(op) && (k == AND || k == OR <==> op == "&&" || op == "||")
  {
  }

  lemma PrefixesAre(a: Node)
    ensures PrefixNode(NOT, a) == Application(Name("!"), [a])
    ensures PrefixNode(PLUS, a) == Application(Name("+"), [Lit(Num(Finite(0.0))), a])
    ensures PrefixNode(MINUS, a) == Application(Name("-"), [Lit(Num(Finite(0.0))), a])
  {
  }

  ghost function NumberPhrase(number: string -> Number, x: Number): Phrase {
    if x == NotANumber then Compose(number, 59, [Mark(61)])
    else if x == PosInfinity then Compose(number, 60, [Mark(INFINITY)])
    else if T.HasNumeral(number, x) then
      var w :| IsNumeral(w) && number(w) == x;
      Numeral(number, w)
    else Numeral(number, "")
  }

  /** An expression written down. */
  ghost function Expression(number: string -> Number, n: Node): Phrase
    decreases n, 1
  {
    match n
    case Lit(Num(x)) => Constant(number, NumberPhrase(number, x))
    case Lit(Str(s)) => Constant(number, Literal(number, s))
    case Lit(Bool(b)) => Constant(number, if b then Compose(number, 57, [Mark(TRUE)])
                                          else Compose(number, 58, [Mark(FALSE)]))
    case EmptyListExpr => Constant(number, Compose(number, 62, [Mark(EMPTY_LIST)]))
    case Name(x) => Variable(number, x)
    case CondExpr(p, c, a) => Conditional(number, Expression(number, p), Expression(number, c), Expression(number, a))
    case BoolOp(op, l, r) => Infix(number, OperatorToken(op), Expression(number, l), Expression(number, r))
    case FunDef(ps, Return(e)) => Lambda(number, ps, Expression(number, e))
    case Application(f, es) =>
      if T.IsSign(number, n) then Prefix(number, if f == Name("+") then PLUS else MINUS, Expression(number, es[1]))
      else if T.IsOperation(f, es) then
        if |es| == 1 then Prefix(number, NOT, Expression(number, es[0]))
        else Infix(number, OperatorToken(f.name), Expression(number, es[0]), Expression(number, es[1]))
      else
        var a := AllOperands(number, Expressions(number, es));
        if f.Name? then CallByName(number, f.name, a) else Call(number, Expression(number, f), a)
    case Unsupported(tag) =>
      if tag == "property_access" then Property(number)
      else if tag == "array_expression" then EmptyArray(number)
      else Object(number)
    case _ => Variable(number, "")
  }

  ghost function Expressions(number: string -> Number, es: seq<Node>): (os: seq<Phrase>)
    ensures |os| == |es|
    decreases es, 2
  {
    if es == [] then [] else [Expression(number, es[0])] + Expressions(number, es[1..])
  }

  lemma NumberIsWritten(number: string -> Number, x: Number)
    requires T.IsExprTree(number, Lit(Num(x)))
    ensures IsWritten(number, NumberPhrase(number, x), CONSTANTS, Ast(Lit(Num(x))))
  {
    hide IsWritten, IsNumeral, Numeral, Compose;
    if x == NotANumber { WordIsWritten(number, 61, 59, Lit(Num(x))); }
    else if x == PosInfinity { WordIsWritten(number, INFINITY, 60, Lit(Num(x))); }
    else {
      assert T.HasNumeral(number, x);
      var w :| IsNumeral(w) && number(w) == x && NumberPhrase(number, x) == Numeral(number, w);
      NumeralIsWritten(number, w);
    }
  }

  /** An expression written down is its tree, with no parentheses around it. */
  lemma {:induction false} ExpressionIsWritten(number: string -> Number, n: Node)
    requires T.IsExprTree(number, n)
    ensures IsExpression(number, Expression(number, n), n)
    decreases n, 1
  {
    hide IsExpression, IsWritten, IsName, IsNumeral, NumberPhrase, Literal, Compose, Constant, Variable, Conditional,
         Infix, Lambda, Prefix, AllOperands, CallByName, Call, Property, EmptyArray, Object, OperatorToken, Mark;
    match n
    case Lit(Num(x)) =>
      NumberIsWritten(number, x);
      ConstantIsWritten(number, NumberPhrase(number, x), n);
    case Lit(Str(s)) =>
      LiteralIsWritten(number, s);
      ConstantIsWritten(number, Literal(number, s), n);
    case Lit(Bool(b)) =>
      WordIsWritten(number, if b then TRUE else FALSE, if b then 57 else 58, n);
      ConstantIsWritten(number, Compose(number, if b then 57 else 58, [Mark(if b then TRUE else FALSE)]), n);
    case EmptyListExpr =>
      WordIsWritten(number, EMPTY_LIST, 62, n);
      ConstantIsWritten(number, Compose(number, 62, [Mark(EMPTY_LIST)]), n);
    case Name(x) => VariableIsWritten(number, x);
    case CondExpr(p, c, a) =>
      ExpressionIsWritten(number, p);
      ExpressionIsWritten(number, c);
      ExpressionIsWritten(number, a);
      ConditionalIsWritten(number, Expression(number, p), p, Expression(number, c), c, Expression(number, a), a);
    case BoolOp(op, l, r) =>
      ExpressionIsWritten(number, l);
      ExpressionIsWritten(number, r);
      OperatorsAreSpelled(op);
      InfixIsWritten(number, OperatorToken(op), Expression(number, l), l, Expression(number, r), r);
    case FunDef(ps, b) =>
      ExpressionIsWritten(number, b.expr);
      if |ps| == 1 {
        assert ps == [ps[0]];
        OneParameterIsWritten(number, ps[0], Expression(number, b.expr), b.expr);
      } else {
        ParametersAreWritten(number, ps, Expression(number, b.expr), b.expr);
      }
    case Application(_, _) => ApplicationIsWritten(number, n);
    case Unsupported(tag) =>
      PropertyIsWritten(number);
      ArrayIsWritten(number);
      ObjectIsWritten(number);
    case _ => assert false;
  }

  lemma {:induction false} ApplicationIsWritten(number: string -> Number, n: Node)
    requires n.Application? && T.IsExprTree(number, n)
    ensures IsExpression(number, Expression(number, n), n)
    decreases n, 0
  {
    hide IsExpression, IsWritten, IsName, Infix, Prefix, AllOperands, CallByName, Call, OperatorToken, PrefixNode;
    var f, es := n.operator, n.operands;
    if T.IsSign(number, n) {
      ExpressionIsWritten(number, es[1]);
      PrefixesAre(es[1]);
      PrefixIsWritten(number, if f == Name("+") then PLUS else MINUS, Expression(number, es[1]), es[1]);
      assert es == [Lit(Num(Finite(0.0))), es[1]];
    } else if T.IsOperation(f, es) {
      ExpressionIsWritten(number, es[0]);
      if |es| == 1 {
        PrefixesAre(es[0]);
        PrefixIsWritten(number, NOT, Expression(number, es[0]), es[0]);
        assert es == [es[0]];
      } else {
        ExpressionIsWritten(number, es[1]);
        OperatorsAreSpelled(f.name);
        InfixIsWritten(number, OperatorToken(f.name), Expression(number, es[0]), es[0], Expression(number, es[1]),
            es[1]);
        assert es == [es[0], es[1]];
      }
    } else {
      ExpressionsAreWritten(number, es);
      if f.Name? {
        CallByNameIsWritten(number, f.name, Expressions(number, es), es);
      } else {
        ExpressionIsWritten(number, f);
        CallIsWritten(number, Expression(number, f), f, Expressions(number, es), es);
      }
    }
  }

  lemma {:induction false} ExpressionsAreWritten(number: string -> Number, es: seq<Node>)
    requires T.AreExprTrees(number, es)
    ensures AreExpressions(number, Expressions(number, es), es)
    decreases es, 2
  {
    hide IsExpression, T.IsExprTree, Expression;
    if es != [] {
      ExpressionIsWritten(number, es[0]);
      ExpressionsAreWritten(number, es[1..]);
    }
  }
}

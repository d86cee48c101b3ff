/** Every tree of a statement is written down, its expressions without parentheses around them. */
module PrintingStatements {
  import opened Syntax
  import opened LRParser
  import opened Spellings
  import opened Rendering
  import opened Grammar
  import opened Precedence
  import T = Trees
  import opened Phrases
  import opened Printing

  /** A phrase that is no expression in parentheses. */
  ghost predicate IsBare(number: string -> Number, ph: Phrase, x: nat, v: Value) {
    IsWritten(number, ph, x, v) && !IsParenthesised(ph.tree)
  }

  ghost predicate AreBare(number: string -> Number, parts: seq<Phrase>, xs: seq<nat>, vs: seq<Value>) {
    |parts| == |xs| == |vs| && forall i | 0 <= i < |xs| :: IsBare(number, parts[i], xs[i], vs[i])
  }

  /** A statement, or a part of one, put together. */
  lemma StatementBy(number: string -> Number, p: nat, parts: seq<Phrase>, vs: seq<Value>, v: Value)
    requires 1 < p <= 26 && AreBare(number, parts, ProductionAt(p).rhs, vs) && ActAt(number, p, vs, NO_TOKEN) == v
    requires (p == 12 || p == 13) && parts != [] ==> !BeginsWithEmptyObject(parts[0].tree)
    ensures IsBare(number, Compose(number, p, parts), ProductionAt(p).lhs, v)
  {
    hide IsWritten, ActAt, ProductionAt, IsSpare, BeginsWithEmptyObject;
    NoSpareParts(p, parts);
    ComposeIsWritten(number, p, parts, vs, v);
  }

  lemma MarkIsBare(number: string -> Number, k: nat)
    requires SymbolRule(k).Some? && !IsPhrase(k)
    ensures IsBare(number, Mark(k), k, Mark(k).value) && Mark(k).value.Text?
  {
    hide IsWritten, SymbolRule, Mark;
    MarkIsWritten(number, k);
    MarkIsLeaf(k);
  }

  lemma ExpressionIsBare(number: string -> Number, n: Node)
    requires T.IsExprTree(number, n)
    ensures IsBare(number, Expression(number, n), EXPRESSION, Ast(n))
    ensures !BeginsWithEmptyObject(Expression(number, n).tree)
  {
    hide T.IsExprTree, Expression, IsWritten;
    ExpressionIsWritten(number, n);
  }

  lemma IdentIsBare(number: string -> Number, x: string)
    requires IsName(x)
    ensures IsBare(number, Ident(x), IDENTIFIER, Text(x))
  {
    hide IsWritten, IsName;
    IdentIsWritten(number, x);
  }

  /** The marks and words of statements. */
  predicate IsStatementMark(k: nat) {
    k == SEMICOLON || k == FUNCTION || k == OPEN || k == CLOSE || k == OPEN_BRACE || k == CLOSE_BRACE || k == RETURN ||
    k == BREAK || k == CONTINUE || k == LET || k == EQUALS || k == CONST || k == IF || k == ELSE || k == WHILE ||
    k == FOR
  }

  lemma StatementMark(number: string -> Number, k: nat)
    requires IsStatementMark(k)
    ensures IsBare(number, Mark(k), k, Mark(k).value) && Mark(k).value.Text?
  {
    MarkIsSpelled(k);
    hide SymbolRule, IsPhrase, IsStatementMark, IsBare;
    MarkIsBare(number, k);
  }

  lemma MarkIsSpelled(k: nat)
    requires IsStatementMark(k)
    ensures SymbolRule(k).Some? && !IsPhrase(k)
  {
    hide KeywordOf;
  }

  // ----- Simple statements -----

  function Wrapped(number: string -> Number, p: nat, ph: Phrase): Phrase {
    Compose(number, p, [ph])
  }

  /** Statements that are one phrase of their own kind, and the parts of a for loop. */
  predicate IsWrapping(p: nat, x: nat) {
    (p == 5 && x == IF_STATEMENT) || (p == 6 && x == WHILE_STATEMENT) || (p == 7 && x == FOR_STATEMENT) ||
    (p == 9 && x == CONST_DECLARATION) || (p == 10 && x == LET_DECLARATION) || (p == 24 && x == LET_DECLARATION) ||
    (p == 26 && x == ASSIGNMENT)
  }

  lemma WrappedIsBare(number: string -> Number, p: nat, x: nat, ph: Phrase, n: Node)
    requires IsWrapping(p, x) && IsBare(number, ph, x, Ast(n))
    ensures IsBare(number, Wrapped(number, p, ph),
                   if p == 24 then FOR_INITIALISER else if p == 26 then FOR_FINALISER else STATEMENT, Ast(n))
  {
    hide IsBare, ActAt, ProductionAt;
    WrappingFacts(number, p, x, n);
    StatementBy(number, p, [ph], [Ast(n)], Ast(n));
  }

  lemma WrappingFacts(number: string -> Number, p: nat, x: nat, n: Node)
    requires IsWrapping(p, x)
    ensures ProductionAt(p).rhs == [x] && ActAt(number, p, [Ast(n)], NO_TOKEN) == Ast(n)
    ensures ProductionAt(p).lhs == if p == 24 then FOR_INITIALISER else if p == 26 then FOR_FINALISER else STATEMENT
  {
    hide ExpressionProduction, ListProduction;
    assert !AnyThrown([Ast(n)]);
  }

  /** A phrase ended by a semicolon. */
  function Ended(number: string -> Number, p: nat, ph: Phrase): Phrase {
    Compose(number, p, [ph, Mark(SEMICOLON)])
  }

  lemma EndedIsBare(number: string -> Number, p: nat, ph: Phrase, n: Node)
    requires (p == 13 && IsBare(number, ph, EXPRESSION, Ast(n))) ||
        ((p == 12 || p == 25) && IsBare(number, ph, ASSIGNMENT, Ast(n)))
    requires !BeginsWithEmptyObject(ph.tree)
    ensures IsBare(number, Ended(number, p, ph), if p == 25 then FOR_INITIALISER else STATEMENT, Ast(n))
  {
    hide IsBare, ActAt, ProductionAt, Mark, BeginsWithEmptyObject;
    EndedFacts(number, p, n);
    StatementMark(number, SEMICOLON);
    StatementBy(number, p, [ph, Mark(SEMICOLON)], [Ast(n), Mark(SEMICOLON).value], Ast(n));
  }

  lemma EndedFacts(number: string -> Number, p: nat, n: Node)
    requires p == 12 || p == 13 || p == 25
    ensures ProductionAt(p).rhs == [if p == 13 then EXPRESSION else ASSIGNMENT, SEMICOLON]
    ensures ProductionAt(p).lhs == if p == 25 then FOR_INITIALISER else STATEMENT
    ensures ActAt(number, p, [Ast(n), Mark(SEMICOLON).value], NO_TOKEN) == Ast(n)
  {
    hide ExpressionProduction, ListProduction, SymbolRule;
    assert !AnyThrown([Ast(n), Mark(SEMICOLON).value]);
  }

  function Returning(number: string -> Number, e: Phrase): Phrase {
    Compose(number, 14, [Mark(RETURN), e, Mark(SEMICOLON)])
  }

  lemma ReturningIsBare(number: string -> Number, e: Phrase, n: Node)
    requires IsBare(number, e, EXPRESSION, Ast(n))
    ensures IsBare(number, Returning(number, e), STATEMENT, Ast(Node.Return(n)))
  {
    hide IsBare, ActAt, ProductionAt, Mark;
    ReturningFacts(number, n);
    StatementMark(number, RETURN);
    StatementMark(number, SEMICOLON);
    StatementBy(number, 14, [Mark(RETURN), e, Mark(SEMICOLON)], [Mark(RETURN).value, Ast(n), Mark(SEMICOLON).value],
                Ast(Node.Return(n)));
  }

  lemma ReturningFacts(number: string -> Number, n: Node)
    ensures ProductionAt(14) == Production(STATEMENT, [RETURN, EXPRESSION, SEMICOLON])
    ensures ActAt(number, 14, [Mark(RETURN).value, Ast(n), Mark(SEMICOLON).value], NO_TOKEN) == Ast(Node.Return(n))
  {
    hide ExpressionProduction, ListProduction, SymbolRule;
    assert !AnyThrown([Mark(RETURN).value, Ast(n), Mark(SEMICOLON).value]);
  }

  function Jumping(number: string -> Number, p: nat): Phrase {
    Compose(number, p, [Mark(p + 8), Mark(SEMICOLON)])
  }

  lemma JumpingIsBare(number: string -> Number, p: nat)
    requires p == 15 || p == 16
    ensures IsBare(number, Jumping(number, p), STATEMENT,
                   Ast(Unsupported(if p == 15 then "break_statement" else "continue_statement")))
  {
    hide IsBare, ActAt, ProductionAt, Mark;
    JumpingFacts(number, p);
    StatementMark(number, p + 8);
    StatementMark(number, SEMICOLON);
    StatementBy(number, p, [Mark(p + 8), Mark(SEMICOLON)], [Mark(p + 8).value, Mark(SEMICOLON).value],
                Ast(Unsupported(if p == 15 then "break_statement" else "continue_statement")));
  }

  lemma JumpingFacts(number: string -> Number, p: nat)
    requires p == 15 || p == 16
    ensures ProductionAt(p) == Production(STATEMENT, [p + 8, SEMICOLON]) && IsStatementMark(p + 8)
    ensures ActAt(number, p, [Mark(p + 8).value, Mark(SEMICOLON).value], NO_TOKEN) ==
            Ast(Unsupported(if p == 15 then "break_statement" else "continue_statement"))
  {
    hide ExpressionProduction, ListProduction, SymbolRule;
    assert !AnyThrown([Mark(p + 8).value, Mark(SEMICOLON).value]);
  }

  /** A declaration by `let` (production 17) or `const` (production 18). */
  function Declaring(number: string -> Number, p: nat, x: string, e: Phrase): Phrase {
    Compose(number, p, [Mark(if p == 17 then LET else CONST), Ident(x), Mark(EQUALS), e, Mark(SEMICOLON)])
  }

  function Declared(p: nat, x: string, n: Node): Node {
    if p == 17 then VarDecl(x, n) else ConstDecl(x, n)
  }

  lemma DeclaringIsBare(number: string -> Number, p: nat, x: string, e: Phrase, n: Node)
    requires (p == 17 || p == 18) && IsName(x) && IsBare(number, e, EXPRESSION, Ast(n))
    ensures IsBare(number, Declaring(number, p, x, e), if p == 17 then LET_DECLARATION else CONST_DECLARATION,
                   Ast(Declared(p, x, n)))
  {
    hide IsBare, ActAt, ProductionAt, Mark, IsName;
    var k := if p == 17 then LET else CONST;
    DeclaringFacts(number, p, x, n);
    StatementMark(number, k);
    StatementMark(number, EQUALS);
    StatementMark(number, SEMICOLON);
    IdentIsBare(number, x);
    StatementBy(number, p, [Mark(k), Ident(x), Mark(EQUALS), e, Mark(SEMICOLON)],
                [Mark(k).value, Text(x), Mark(EQUALS).value, Ast(n), Mark(SEMICOLON).value], Ast(Declared(p, x, n)));
  }

  lemma DeclaringFacts(number: string -> Number, p: nat, x: string, n: Node)
    requires p == 17 || p == 18
    ensures var k := if p == 17 then LET else CONST;
            && ProductionAt(p) == Production(if p == 17 then LET_DECLARATION else CONST_DECLARATION,
                                             [k, IDENTIFIER, EQUALS, EXPRESSION, SEMICOLON])
            && ActAt(number, p, [Mark(k).value, Text(x), Mark(EQUALS).value, Ast(n), Mark(SEMICOLON).value], NO_TOKEN)
               == Ast(Declared(p, x, n))
  {
    hide ExpressionProduction, ListProduction, SymbolRule;
    var k := if p == 17 then LET else CONST;
    assert !AnyThrown([Mark(k).value, Text(x), Mark(EQUALS).value, Ast(n), Mark(SEMICOLON).value]);
  }

  // ----- Assignments -----

  /** Of a name, or of a property, of which nothing is kept. */
  ghost function Assigning(number: string -> Number, n: Node): Phrase {
    if n.Assignment? then
      Compose(number, 19, [Variable(number, n.name), Mark(EQUALS), Expression(number, n.value)])
    else Compose(number, 19, [Property(number), Mark(EQUALS), Variable(number, ANY_NAME)])
  }

  lemma AssigningFacts(number: string -> Number, target: Node, n: Node)
    ensures ProductionAt(19) == Production(ASSIGNMENT, [EXPRESSION, EQUALS, EXPRESSION])
    ensures target.Name? || target == Unsupported("property_access") ==>
              ActAt(number, 19, [Ast(target), Mark(EQUALS).value, Ast(n)], NO_TOKEN) == AssignmentTo(target, n)
  {
    hide ExpressionProduction, ListProduction, SymbolRule;
    assert !AnyThrown([Ast(target), Mark(EQUALS).value, Ast(n)]);
  }

  lemma AssigningBy(number: string -> Number, target: Phrase, t: Node, e: Phrase, n: Node)
    requires IsExpression(number, target, t) && IsBare(number, e, EXPRESSION, Ast(n))
    requires t.Name? || t == Unsupported("property_access")
    ensures var ph := Compose(number, 19, [target, Mark(EQUALS), e]);
            IsBare(number, ph, ASSIGNMENT, AssignmentTo(t, n)) && !BeginsWithEmptyObject(ph.tree)
  {
    hide IsWritten, ActAt, ProductionAt, Mark, AssignmentTo;
    AssigningFacts(number, t, n);
    StatementMark(number, EQUALS);
    var parts := [target, Mark(EQUALS), e];
    StatementBy(number, 19, parts, [Ast(t), Mark(EQUALS).value, Ast(n)], AssignmentTo(t, n));
    assert Trees(parts)[0] == target.tree;
  }

  lemma AssigningIsBare(number: string -> Number, n: Node)
    requires T.IsAssignmentTree(number, n)
    ensures IsBare(number, Assigning(number, n), ASSIGNMENT, Ast(n))
    ensures !BeginsWithEmptyObject(Assigning(number, n).tree)
  {
    hide IsBare, IsExpression, Compose, BeginsWithEmptyObject, T.IsExprTree, IsName, ANY_NAME, Variable, Property,
         Expression, Mark;
    AnyNameIsName();
    if n.Assignment? {
      VariableIsWritten(number, n.name);
      ExpressionIsBare(number, n.value);
      AssigningBy(number, Variable(number, n.name), Name(n.name), Expression(number, n.value), n.value);
    } else {
      PropertyIsWritten(number);
      VariableIsWritten(number, ANY_NAME);
      ExpressionAsBare(number, Variable(number, ANY_NAME), Name(ANY_NAME));
      AssigningBy(number, Property(number), Unsupported("property_access"), Variable(number, ANY_NAME), Name(ANY_NAME));
    }
  }

  lemma ExpressionAsBare(number: string -> Number, e: Phrase, n: Node)
    requires IsExpression(number, e, n)
    ensures IsBare(number, e, EXPRESSION, Ast(n))
  {
  }

  // ----- Lists and blocks -----

  function NoStatements(number: string -> Number): Phrase {
    Compose(number, 2, [])
  }

  function MoreStatements(number: string -> Number, first: Phrase, more: Phrase): Phrase {
    Compose(number, 4, [first, more])
  }

  lemma ListFacts(number: string -> Number, n: Node, ss: seq<Node>)
    ensures ProductionAt(2) == Production(STATEMENTS, []) && ActAt(number, 2, [], NO_TOKEN) == Statements([])
    ensures ProductionAt(4) == Production(STATEMENTS, [STATEMENT, STATEMENTS])
    ensures ActAt(number, 4, [Ast(n), Statements(ss)], NO_TOKEN) == Statements([n] + ss)
  {
    hide ExpressionProduction, ListProduction;
    assert !AnyThrown([Ast(n), Statements(ss)]);
  }

  lemma NoStatementsAreBare(number: string -> Number)
    ensures IsBare(number, NoStatements(number), STATEMENTS, Statements([]))
  {
    hide IsBare, ActAt, ProductionAt;
    ListFacts(number, EmptyListExpr, []);
    StatementBy(number, 2, [], [], Statements([]));
  }

  lemma MoreStatementsAreBare(number: string -> Number, first: Phrase, n: Node, more: Phrase, ss: seq<Node>)
    requires IsBare(number, first, STATEMENT, Ast(n)) && IsBare(number, more, STATEMENTS, Statements(ss))
    ensures IsBare(number, MoreStatements(number, first, more), STATEMENTS, Statements([n] + ss))
  {
    hide IsBare, ActAt, ProductionAt;
    ListFacts(number, n, ss);
    StatementBy(number, 4, [first, more], [Ast(n), Statements(ss)], Statements([n] + ss));
  }

  function BlockOf(ss: seq<Node>): Node {
    Block(Sequence(ss))
  }

  function Braced(number: string -> Number, l: Phrase): Phrase {
    Compose(number, 11, [Mark(OPEN_BRACE), l, Mark(CLOSE_BRACE)])
  }

  lemma BracedIsBare(number: string -> Number, l: Phrase, ss: seq<Node>)
    requires IsBare(number, l, STATEMENTS, Statements(ss))
    ensures IsBare(number, Braced(number, l), STATEMENT, Ast(BlockOf(ss)))
  {
    hide IsBare, ActAt, ProductionAt, Mark;
    BracedFacts(number, ss);
    StatementMark(number, OPEN_BRACE);
    StatementMark(number, CLOSE_BRACE);
    StatementBy(number, 11, [Mark(OPEN_BRACE), l, Mark(CLOSE_BRACE)],
                [Mark(OPEN_BRACE).value, Statements(ss), Mark(CLOSE_BRACE).value], Ast(BlockOf(ss)));
  }

  lemma BracedFacts(number: string -> Number, ss: seq<Node>)
    ensures ProductionAt(11) == Production(STATEMENT, [OPEN_BRACE, STATEMENTS, CLOSE_BRACE])
    ensures ActAt(number, 11, [Mark(OPEN_BRACE).value, Statements(ss), Mark(CLOSE_BRACE).value], NO_TOKEN) ==
            Ast(BlockOf(ss))
  {
    hide ExpressionProduction, ListProduction, SymbolRule;
    assert !AnyThrown([Mark(OPEN_BRACE).value, Statements(ss), Mark(CLOSE_BRACE).value]);
  }

  // ----- Loops -----

  function WhileLoop(number: string -> Number, e: Phrase, l: Phrase): Phrase {
    Compose(number, 22, [Mark(WHILE), Mark(OPEN), e, Mark(CLOSE), Mark(OPEN_BRACE), l, Mark(CLOSE_BRACE)])
  }

  /** The values of the parts that a condition and the block behind it are written with. */
  function HeadValues(k: nat, n: Node, ss: seq<Node>): seq<Value> {
    [Mark(k).value, Mark(OPEN).value, Ast(n), Mark(CLOSE).value, Mark(OPEN_BRACE).value, Statements(ss),
     Mark(CLOSE_BRACE).value]
  }

  lemma WhileIsBare(number: string -> Number, e: Phrase, n: Node, l: Phrase, ss: seq<Node>)
    requires IsBare(number, e, EXPRESSION, Ast(n)) && IsBare(number, l, STATEMENTS, Statements(ss))
    ensures IsBare(number, WhileLoop(number, e, l), WHILE_STATEMENT, Ast(While(n, BlockOf(ss))))
  {
    hide IsBare, ActAt, ProductionAt, Mark;
    WhileFacts(number, n, ss);
    StatementMark(number, WHILE);
    StatementMark(number, OPEN);
    StatementMark(number, CLOSE);
    StatementMark(number, OPEN_BRACE);
    StatementMark(number, CLOSE_BRACE);
    var parts := [Mark(WHILE), Mark(OPEN), e, Mark(CLOSE), Mark(OPEN_BRACE), l, Mark(CLOSE_BRACE)];
    StatementBy(number, 22, parts, HeadValues(WHILE, n, ss), Ast(While(n, BlockOf(ss))));
  }

  lemma WhileFacts(number: string -> Number, n: Node, ss: seq<Node>)
    ensures ProductionAt(22) ==
            Production(WHILE_STATEMENT, [WHILE, OPEN, EXPRESSION, CLOSE, OPEN_BRACE, STATEMENTS, CLOSE_BRACE])
    ensures ActAt(number, 22, HeadValues(WHILE, n, ss), NO_TOKEN) == Ast(While(n, BlockOf(ss)))
  {
    hide ExpressionProduction, ListProduction, SymbolRule;
    assert !AnyThrown(HeadValues(WHILE, n, ss));
  }

  function ForLoop(number: string -> Number, i: Phrase, e: Phrase, f: Phrase, l: Phrase): Phrase {
    Compose(number, 23, [Mark(FOR), Mark(OPEN), i, e, Mark(SEMICOLON), f, Mark(CLOSE), Mark(OPEN_BRACE), l,
                         Mark(CLOSE_BRACE)])
  }

  function ForValues(i: Node, p: Node, f: Node, ss: seq<Node>): seq<Value> {
    [Mark(FOR).value, Mark(OPEN).value, Ast(i), Ast(p), Mark(SEMICOLON).value, Ast(f), Mark(CLOSE).value,
     Mark(OPEN_BRACE).value, Statements(ss), Mark(CLOSE_BRACE).value]
  }

  lemma ForIsBare(number: string -> Number, i: Phrase, ni: Node, e: Phrase, n: Node, f: Phrase, nf: Node, l: Phrase,
                  ss: seq<Node>)
    requires IsBare(number, i, FOR_INITIALISER, Ast(ni)) && IsBare(number, e, EXPRESSION, Ast(n))
    requires IsBare(number, f, FOR_FINALISER, Ast(nf)) && IsBare(number, l, STATEMENTS, Statements(ss))
    ensures IsBare(number, ForLoop(number, i, e, f, l), FOR_STATEMENT, Ast(For(ni, n, nf, ss)))
  {
    hide IsBare, ActAt, ProductionAt, Mark;
    ForFacts(number, ni, n, nf, ss);
    StatementMark(number, FOR);
    StatementMark(number, OPEN);
    StatementMark(number, SEMICOLON);
    StatementMark(number, CLOSE);
    StatementMark(number, OPEN_BRACE);
    StatementMark(number, CLOSE_BRACE);
    var parts := [Mark(FOR), Mark(OPEN), i, e, Mark(SEMICOLON), f, Mark(CLOSE), Mark(OPEN_BRACE), l,
                  Mark(CLOSE_BRACE)];
    StatementBy(number, 23, parts, ForValues(ni, n, nf, ss), Ast(For(ni, n, nf, ss)));
  }

  lemma ForFacts(number: string -> Number, i: Node, p: Node, f: Node, ss: seq<Node>)
    ensures ProductionAt(23) ==
            Production(FOR_STATEMENT, [FOR, OPEN, FOR_INITIALISER, EXPRESSION, SEMICOLON, FOR_FINALISER, CLOSE,
                                       OPEN_BRACE, STATEMENTS, CLOSE_BRACE])
    ensures ActAt(number, 23, ForValues(i, p, f, ss), NO_TOKEN) == Ast(For(i, p, f, ss))
  {
    hide ExpressionProduction, ListProduction, SymbolRule;
    assert !AnyThrown(ForValues(i, p, f, ss));
  }

  // ----- Conditionals and functions -----

  function IfHead(e: Phrase, l: Phrase): seq<Phrase> {
    [Mark(IF), Mark(OPEN), e, Mark(CLOSE), Mark(OPEN_BRACE), l, Mark(CLOSE_BRACE)]
  }

  function IfElse(number: string -> Number, e: Phrase, l: Phrase, m: Phrase): Phrase {
    Compose(number, 20, IfHead(e, l) + [Mark(ELSE), Mark(OPEN_BRACE), m, Mark(CLOSE_BRACE)])
  }

  function ElseIf(number: string -> Number, e: Phrase, l: Phrase, m: Phrase): Phrase {
    Compose(number, 21, IfHead(e, l) + [Mark(ELSE), m])
  }

  lemma IfMarks(number: string -> Number)
    ensures forall k | k in {IF, OPEN, CLOSE, OPEN_BRACE, CLOSE_BRACE, ELSE} ::
              IsBare(number, Mark(k), k, Mark(k).value) && Mark(k).value.Text?
  {
    forall k | k in {IF, OPEN, CLOSE, OPEN_BRACE, CLOSE_BRACE, ELSE}
      ensures IsBare(number, Mark(k), k, Mark(k).value) && Mark(k).value.Text?
    {
      StatementMark(number, k);
    }
  }

  lemma IfElseIsBare(number: string -> Number, e: Phrase, n: Node, l: Phrase, ss: seq<Node>, m: Phrase, zs: seq<Node>)
    requires IsBare(number, e, EXPRESSION, Ast(n)) && IsBare(number, l, STATEMENTS, Statements(ss))
    requires IsBare(number, m, STATEMENTS, Statements(zs))
    ensures IsBare(number, IfElse(number, e, l, m), IF_STATEMENT, Ast(CondStmt(n, BlockOf(ss), BlockOf(zs))))
  {
    hide IsBare, ActAt, ProductionAt, Mark;
    IfFacts(number, n, ss, zs, EmptyListExpr);
    IfMarks(number);
    var parts := IfHead(e, l) + [Mark(ELSE), Mark(OPEN_BRACE), m, Mark(CLOSE_BRACE)];
    var vs := HeadValues(IF, n, ss) + [Mark(ELSE).value, Mark(OPEN_BRACE).value, Statements(zs),
                                       Mark(CLOSE_BRACE).value];
    StatementBy(number, 20, parts, vs, Ast(CondStmt(n, BlockOf(ss), BlockOf(zs))));
  }

  lemma ElseIfIsBare(number: string -> Number, e: Phrase, n: Node, l: Phrase, ss: seq<Node>, m: Phrase, z: Node)
    requires IsBare(number, e, EXPRESSION, Ast(n)) && IsBare(number, l, STATEMENTS, Statements(ss))
    requires IsBare(number, m, IF_STATEMENT, Ast(z))
    ensures IsBare(number, ElseIf(number, e, l, m), IF_STATEMENT, Ast(CondStmt(n, BlockOf(ss), Sequence([z]))))
  {
    hide IsBare, ActAt, ProductionAt, Mark;
    IfFacts(number, n, ss, [], z);
    IfMarks(number);
    var parts := IfHead(e, l) + [Mark(ELSE), m];
    var vs := HeadValues(IF, n, ss) + [Mark(ELSE).value, Ast(z)];
    StatementBy(number, 21, parts, vs, Ast(CondStmt(n, BlockOf(ss), Sequence([z]))));
  }

  lemma IfFacts(number: string -> Number, n: Node, ss: seq<Node>, zs: seq<Node>, z: Node)
    ensures ProductionAt(20) ==
            Production(IF_STATEMENT, [IF, OPEN, EXPRESSION, CLOSE, OPEN_BRACE, STATEMENTS, CLOSE_BRACE,
                                      ELSE, OPEN_BRACE, STATEMENTS, CLOSE_BRACE])
    ensures ProductionAt(21) ==
            Production(IF_STATEMENT, [IF, OPEN, EXPRESSION, CLOSE, OPEN_BRACE, STATEMENTS, CLOSE_BRACE, ELSE,
                                      IF_STATEMENT])
    ensures ActAt(number, 20, HeadValues(IF, n, ss) + [Mark(ELSE).value, Mark(OPEN_BRACE).value, Statements(zs),
                                                       Mark(CLOSE_BRACE).value], NO_TOKEN) ==
            Ast(CondStmt(n, BlockOf(ss), BlockOf(zs)))
    ensures ActAt(number, 21, HeadValues(IF, n, ss) + [Mark(ELSE).value, Ast(z)], NO_TOKEN) ==
            Ast(CondStmt(n, BlockOf(ss), Sequence([z])))
  {
    hide ExpressionProduction, ListProduction, SymbolRule;
    assert !AnyThrown(HeadValues(IF, n, ss) + [Mark(ELSE).value, Mark(OPEN_BRACE).value, Statements(zs),
                                               Mark(CLOSE_BRACE).value]);
    assert !AnyThrown(HeadValues(IF, n, ss) + [Mark(ELSE).value, Ast(z)]);
  }

  function FunctionOf(number: string -> Number, x: string, ps: seq<string>, l: Phrase): Phrase {
    Compose(number, 8, [Mark(FUNCTION), Ident(x), Mark(OPEN), Printing.AllNames(number, ps), Mark(CLOSE),
                        Mark(OPEN_BRACE), l, Mark(CLOSE_BRACE)])
  }

  function FunctionValues(x: string, ps: seq<string>, ss: seq<Node>): seq<Value> {
    [Mark(FUNCTION).value, Text(x), Mark(OPEN).value, Names(ps), Mark(CLOSE).value, Mark(OPEN_BRACE).value,
     Statements(ss), Mark(CLOSE_BRACE).value]
  }

  lemma FunctionIsBare(number: string -> Number, x: string, ps: seq<string>, l: Phrase, ss: seq<Node>)
    requires IsName(x) && T.AllNames(ps) && IsBare(number, l, STATEMENTS, Statements(ss))
    ensures IsBare(number, FunctionOf(number, x, ps, l), STATEMENT, Ast(ConstDecl(x, FunDef(ps, Sequence(ss)))))
  {
    hide IsWritten, ActAt, ProductionAt, Mark, IsName, Printing.AllNames;
    FunctionFacts(number, x, ps, ss);
    IdentIsBare(number, x);
    AllNamesAreWritten(number, ps);
    StatementMark(number, FUNCTION);
    StatementMark(number, OPEN);
    StatementMark(number, CLOSE);
    StatementMark(number, OPEN_BRACE);
    StatementMark(number, CLOSE_BRACE);
    hide IsBare;
    var parts := [Mark(FUNCTION), Ident(x), Mark(OPEN), Printing.AllNames(number, ps), Mark(CLOSE),
                  Mark(OPEN_BRACE), l, Mark(CLOSE_BRACE)];
    StatementBy(number, 8, parts, FunctionValues(x, ps, ss), Ast(ConstDecl(x, FunDef(ps, Sequence(ss)))));
  }

  lemma FunctionFacts(number: string -> Number, x: string, ps: seq<string>, ss: seq<Node>)
    ensures ProductionAt(8) ==
            Production(STATEMENT, [FUNCTION, IDENTIFIER, OPEN, IDENTIFIERS, CLOSE, OPEN_BRACE, STATEMENTS,
                                   CLOSE_BRACE])
    ensures ActAt(number, 8, FunctionValues(x, ps, ss), NO_TOKEN) == Ast(ConstDecl(x, FunDef(ps, Sequence(ss))))
  {
    hide ExpressionProduction, ListProduction, SymbolRule;
    assert !AnyThrown(FunctionValues(x, ps, ss));
  }

  // ----- All statements -----

  ghost function Statement(number: string -> Number, n: Node): Phrase
    decreases n, 1
  {
    match n
    case ConstDecl(x, FunDef(ps, Sequence(ss))) => FunctionOf(number, x, ps, StatementList(number, ss))
    case ConstDecl(x, e) => Wrapped(number, 9, Declaring(number, 18, x, Expression(number, e)))
    case VarDecl(x, e) => Wrapped(number, 10, Declaring(number, 17, x, Expression(number, e)))
    case CondStmt(_, _, _) => Wrapped(number, 5, Choice(number, n))
    case Return(e) => Returning(number, Expression(number, e))
    case Block(Sequence(ss)) => Braced(number, StatementList(number, ss))
    case While(p, Block(Sequence(ss))) =>
      Wrapped(number, 6, WhileLoop(number, Expression(number, p), StatementList(number, ss)))
    case For(i, p, f, b) =>
      Wrapped(number, 7, ForLoop(number, Initialiser(number, i), Expression(number, p),
                                 Wrapped(number, 26, Assigning(number, f)), StatementList(number, b)))
    case Assignment(_, _) => Ended(number, 12, Assigning(number, n))
    case Unsupported(tag) =>
      if tag == "break_statement" then Jumping(number, 15)
      else if tag == "continue_statement" then Jumping(number, 16)
      else if tag == "property_assignment" then Ended(number, 12, Assigning(number, n))
      else Ended(number, 13, Expression(number, n))
    case _ => Ended(number, 13, Expression(number, n))
  }

  ghost function Initialiser(number: string -> Number, i: Node): Phrase {
    if i.VarDecl? then Wrapped(number, 24, Declaring(number, 17, i.name, Expression(number, i.value)))
    else Ended(number, 25, Assigning(number, i))
  }

  /** A conditional, whose alternative may be another. */
  ghost function Choice(number: string -> Number, n: Node): Phrase
    decreases n, 0
  {
    match n
    case CondStmt(p, Block(Sequence(ss)), Block(Sequence(zs))) =>
      IfElse(number, Expression(number, p), StatementList(number, ss), StatementList(number, zs))
    case CondStmt(p, Block(Sequence(ss)), Sequence(zs)) =>
      ElseIf(number, Expression(number, p), StatementList(number, ss),
             if zs == [] then NoStatements(number) else Choice(number, zs[0]))
    case _ => NoStatements(number)
  }

  ghost function StatementList(number: string -> Number, ss: seq<Node>): Phrase
    decreases ss, 2
  {
    if ss == [] then NoStatements(number)
    else MoreStatements(number, Statement(number, ss[0]), StatementList(number, ss[1..]))
  }

  lemma {:induction false} StatementsAreWritten(number: string -> Number, ss: seq<Node>)
    requires T.AreStmtTrees(number, ss)
    ensures IsBare(number, StatementList(number, ss), STATEMENTS, Statements(ss))
    decreases ss, 2
  {
    hide IsBare, T.IsStmtTree, Statement, NoStatements, MoreStatements;
    if ss == [] {
      NoStatementsAreBare(number);
    } else {
      StatementIsWritten(number, ss[0]);
      StatementsAreWritten(number, ss[1..]);
      MoreStatementsAreBare(number, Statement(number, ss[0]), ss[0], StatementList(number, ss[1..]), ss[1..]);
      assert [ss[0]] + ss[1..] == ss;
    }
  }

  lemma {:induction false} ChoiceIsWritten(number: string -> Number, n: Node)
    requires n.CondStmt? && T.IsStmtTree(number, n)
    ensures IsBare(number, Choice(number, n), IF_STATEMENT, Ast(n))
    decreases n, 0
  {
    hide IsBare, T.IsExprTree, Expression, StatementList, IfElse, ElseIf;
    var e, ss := Expression(number, n.predicate_), n.consequent.body.stmts;
    ExpressionIsBare(number, n.predicate_);
    StatementsAreWritten(number, ss);
    if T.IsBlockTree(number, n.alternative) {
      var zs := n.alternative.body.stmts;
      StatementsAreWritten(number, zs);
      IfElseIsBare(number, e, n.predicate_, StatementList(number, ss), ss, StatementList(number, zs), zs);
    } else {
      var z := n.alternative.stmts[0];
      ChoiceIsWritten(number, z);
      ElseIfIsBare(number, e, n.predicate_, StatementList(number, ss), ss, Choice(number, z), z);
      assert n.alternative.stmts == [z];
    }
  }

  lemma InitialiserIsWritten(number: string -> Number, i: Node)
    requires (i.VarDecl? && IsName(i.name) && T.IsExprTree(number, i.value)) || T.IsAssignmentTree(number, i)
    ensures IsBare(number, Initialiser(number, i), FOR_INITIALISER, Ast(i))
  {
    hide IsBare, IsName, T.IsExprTree, Expression, Declaring, Wrapped, Ended, Assigning, BeginsWithEmptyObject;
    if i.VarDecl? {
      ExpressionIsBare(number, i.value);
      DeclaringIsBare(number, 17, i.name, Expression(number, i.value), i.value);
      WrappedIsBare(number, 24, LET_DECLARATION, Declaring(number, 17, i.name, Expression(number, i.value)), i);
    } else {
      AssigningIsBare(number, i);
      EndedIsBare(number, 25, Assigning(number, i), i);
    }
  }

  lemma {:induction false} ForIsWritten(number: string -> Number, n: Node)
    requires n.For? && T.IsStmtTree(number, n)
    ensures IsBare(number, Statement(number, n), STATEMENT, Ast(n))
    decreases n, 0
  {
    hide IsBare, IsName, T.IsExprTree, Expression, Wrapped, Assigning, BeginsWithEmptyObject, StatementList, ForLoop,
         Initialiser, T.IsAssignmentTree;
    var For(i, p, f, b) := n;
    InitialiserIsWritten(number, i);
    ExpressionIsBare(number, p);
    AssigningIsBare(number, f);
    WrappedIsBare(number, 26, ASSIGNMENT, Assigning(number, f), f);
    StatementsAreWritten(number, b);
    var fin := Wrapped(number, 26, Assigning(number, f));
    ForIsBare(number, Initialiser(number, i), i, Expression(number, p), p, fin, f, StatementList(number, b), b);
    WrappedIsBare(number, 7, FOR_STATEMENT,
                  ForLoop(number, Initialiser(number, i), Expression(number, p), fin, StatementList(number, b)), n);
  }

  /** A statement written down is its tree. */
  lemma {:induction false} StatementIsWritten(number: string -> Number, n: Node)
    requires T.IsStmtTree(number, n)
    ensures IsBare(number, Statement(number, n), STATEMENT, Ast(n))
    decreases n, 1
  {
    hide IsBare, IsName, T.IsExprTree, Expression, Declaring, Wrapped, Ended, Assigning, BeginsWithEmptyObject,
         StatementList, Returning, Braced, WhileLoop, FunctionOf, Jumping, Choice;
    match n
    case ConstDecl(x, e) => ConstIsWritten(number, n);
    case VarDecl(x, e) =>
      ExpressionIsBare(number, e);
      DeclaringIsBare(number, 17, x, Expression(number, e), e);
      WrappedIsBare(number, 10, LET_DECLARATION, Declaring(number, 17, x, Expression(number, e)), n);
    case CondStmt(_, _, _) =>
      ChoiceIsWritten(number, n);
      WrappedIsBare(number, 5, IF_STATEMENT, Choice(number, n), n);
    case Return(e) =>
      ExpressionIsBare(number, e);
      ReturningIsBare(number, Expression(number, e), e);
    case Block(b) =>
      StatementsAreWritten(number, b.stmts);
      BracedIsBare(number, StatementList(number, b.stmts), b.stmts);
    case While(p, b) =>
      ExpressionIsBare(number, p);
      var ss := b.body.stmts;
      StatementsAreWritten(number, ss);
      WhileIsBare(number, Expression(number, p), p, StatementList(number, ss), ss);
      WrappedIsBare(number, 6, WHILE_STATEMENT, WhileLoop(number, Expression(number, p), StatementList(number, ss)), n);
    case For(_, _, _, _) => ForIsWritten(number, n);
    case Assignment(_, _) =>
      AssigningIsBare(number, n);
      EndedIsBare(number, 12, Assigning(number, n), n);
    case Unsupported(tag) => UnsupportedIsWritten(number, n);
    case _ =>
      ExpressionIsBare(number, n);
      EndedIsBare(number, 13, Expression(number, n), n);
  }

  lemma UnsupportedIsWritten(number: string -> Number, n: Node)
    requires n.Unsupported? && T.IsStmtTree(number, n)
    ensures IsBare(number, Statement(number, n), STATEMENT, Ast(n))
  {
    hide IsBare, Expression, Ended, Assigning, BeginsWithEmptyObject, Jumping;
    if n.tag == "break_statement" { JumpingIsBare(number, 15); }
    else if n.tag == "continue_statement" { JumpingIsBare(number, 16); }
    else if n.tag == "property_assignment" {
      AssigningIsBare(number, n);
      EndedIsBare(number, 12, Assigning(number, n), n);
    } else {
      ExpressionIsBare(number, n);
      EndedIsBare(number, 13, Expression(number, n), n);
    }
  }

  lemma {:induction false} ConstIsWritten(number: string -> Number, n: Node)
    requires n.ConstDecl? && T.IsStmtTree(number, n)
    ensures IsBare(number, Statement(number, n), STATEMENT, Ast(n))
    decreases n, 0
  {
    hide IsBare, IsName, Expression, Declaring, Wrapped, StatementList, FunctionOf;
    var x, e := n.name, n.value;
    if e.FunDef? && e.body.Sequence? {
      StatementsAreWritten(number, e.body.stmts);
      FunctionIsBare(number, x, e.parameters, StatementList(number, e.body.stmts), e.body.stmts);
    } else {
      ExpressionIsBare(number, e);
      DeclaringIsBare(number, 18, x, Expression(number, e), e);
      WrappedIsBare(number, 9, CONST_DECLARATION, Declaring(number, 18, x, Expression(number, e)), n);
    }
  }
}

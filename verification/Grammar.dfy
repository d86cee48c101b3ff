/** The grammar of the language: its productions and the nodes that the parser's semantic actions build.
    Symbols and productions keep the numbers they have in the original.
 */
module Grammar {
  import opened Syntax
  import opened LRParser

  // ----- Symbols -----

  const PROGRAM: nat := 3
  const STATEMENTS: nat := 4
  const EOF: nat := 5
  const SEMICOLON: nat := 6
  const STATEMENT: nat := 7
  const IF_STATEMENT: nat := 8
  const WHILE_STATEMENT: nat := 9
  const FOR_STATEMENT: nat := 10
  const FUNCTION: nat := 11
  const IDENTIFIER: nat := 12
  const OPEN: nat := 13
  const IDENTIFIERS: nat := 14
  const CLOSE: nat := 15
  const OPEN_BRACE: nat := 16
  const CLOSE_BRACE: nat := 17
  const CONST_DECLARATION: nat := 18
  const LET_DECLARATION: nat := 19
  const ASSIGNMENT: nat := 20
  const EXPRESSION: nat := 21
  const RETURN: nat := 22
  const BREAK: nat := 23
  const CONTINUE: nat := 24
  const LET: nat := 25
  const EQUALS: nat := 26
  const CONST: nat := 27
  const IF: nat := 28
  const ELSE: nat := 29
  const WHILE: nat := 30
  const FOR: nat := 31
  const FOR_INITIALISER: nat := 32
  const FOR_FINALISER: nat := 33
  const PLUS: nat := 34
  const MINUS: nat := 35
  const NOT: nat := 39
  const AND: nat := 40
  const OR: nat := 41
  const ARROW: nat := 48
  const OPEN_BRACKET: nat := 49
  const CLOSE_BRACKET: nat := 50
  const DOT: nat := 51
  const CONSTANTS: nat := 52
  const EXPRESSIONS: nat := 53
  const PAIRS: nat := 54
  const QUESTION: nat := 55
  const COLON: nat := 56
  const NUMBER: nat := 57
  const TRUE: nat := 59
  const FALSE: nat := 60
  const INFINITY: nat := 62
  const QUOTED_STRING: nat := 63
  const EMPTY_LIST: nat := 64
  const EMPTY_STRING: nat := 65
  const PLAIN: nat := 66
  const ESCAPE: nat := 67
  const NONEMPTY_EXPRESSIONS: nat := 68
  const COMMA: nat := 69
  const NONEMPTY_PAIRS: nat := 70
  const PAIR: nat := 71
  const NONEMPTY_IDENTIFIERS: nat := 72
  const NAME: nat := 73

  // ----- Productions -----

  function ProductionAt(p: nat): Production {
    if p <= 26 then StatementProduction(p) else if p <= 54 then ExpressionProduction(p) else ListProduction(p)
  }

  function StatementProduction(p: nat): Production {
    if p == 1 then Production(PROGRAM, [STATEMENTS, EOF])
    else if p == 2 then Production(STATEMENTS, [])
    else if p == 3 then Production(STATEMENTS, [SEMICOLON])
    else if p == 4 then Production(STATEMENTS, [STATEMENT, STATEMENTS])
    else if p == 5 then Production(STATEMENT, [IF_STATEMENT])
    else if p == 6 then Production(STATEMENT, [WHILE_STATEMENT])
    else if p == 7 then Production(STATEMENT, [FOR_STATEMENT])
    else if p == 8 then
      Production(STATEMENT, [FUNCTION, IDENTIFIER, OPEN, IDENTIFIERS, CLOSE, OPEN_BRACE, STATEMENTS, CLOSE_BRACE])
    else if p == 9 then Production(STATEMENT, [CONST_DECLARATION])
    else if p == 10 then Production(STATEMENT, [LET_DECLARATION])
    else if p == 11 then Production(STATEMENT, [OPEN_BRACE, STATEMENTS, CLOSE_BRACE])
    else if p == 12 then Production(STATEMENT, [ASSIGNMENT, SEMICOLON])
    else if p == 13 then Production(STATEMENT, [EXPRESSION, SEMICOLON])
    else if p == 14 then Production(STATEMENT, [RETURN, EXPRESSION, SEMICOLON])
    else if p == 15 then Production(STATEMENT, [BREAK, SEMICOLON])
    else if p == 16 then Production(STATEMENT, [CONTINUE, SEMICOLON])
    else if p == 17 then Production(LET_DECLARATION, [LET, IDENTIFIER, EQUALS, EXPRESSION, SEMICOLON])
    else if p == 18 then Production(CONST_DECLARATION, [CONST, IDENTIFIER, EQUALS, EXPRESSION, SEMICOLON])
    else if p == 19 then Production(ASSIGNMENT, [EXPRESSION, EQUALS, EXPRESSION])
    else if p == 20 then
      Production(IF_STATEMENT, [IF, OPEN, EXPRESSION, CLOSE, OPEN_BRACE, STATEMENTS, CLOSE_BRACE,
                                ELSE, OPEN_BRACE, STATEMENTS, CLOSE_BRACE])
    else if p == 21 then
      Production(IF_STATEMENT, [IF, OPEN, EXPRESSION, CLOSE, OPEN_BRACE, STATEMENTS, CLOSE_BRACE, ELSE, IF_STATEMENT])
    else if p == 22 then
      Production(WHILE_STATEMENT, [WHILE, OPEN, EXPRESSION, CLOSE, OPEN_BRACE, STATEMENTS, CLOSE_BRACE])
    else if p == 23 then
      Production(FOR_STATEMENT, [FOR, OPEN, FOR_INITIALISER, EXPRESSION, SEMICOLON, FOR_FINALISER, CLOSE,
                                 OPEN_BRACE, STATEMENTS, CLOSE_BRACE])
    else if p == 24 then Production(FOR_INITIALISER, [LET_DECLARATION])
    else if p == 25 then Production(FOR_INITIALISER, [ASSIGNMENT, SEMICOLON])
    else if p == 26 then Production(FOR_FINALISER, [ASSIGNMENT])
    else Production(BOTTOM, [])
  }

  function ExpressionProduction(p: nat): Production {
    if 27 <= p <= 31 then Production(EXPRESSION, [EXPRESSION, p + 7, EXPRESSION])
    else if p == 32 then Production(EXPRESSION, [MINUS, EXPRESSION])
    else if p == 33 then Production(EXPRESSION, [PLUS, EXPRESSION])
    else if p == 34 then Production(EXPRESSION, [NOT, EXPRESSION])
    else if 35 <= p <= 42 then Production(EXPRESSION, [EXPRESSION, p + 5, EXPRESSION])
    else if p == 43 then Production(EXPRESSION, [OPEN, IDENTIFIERS, CLOSE, ARROW, EXPRESSION])
    else if p == 44 then Production(EXPRESSION, [EXPRESSION, ARROW, EXPRESSION])
    else if p == 45 then Production(EXPRESSION, [EXPRESSION, OPEN_BRACKET, EXPRESSION, CLOSE_BRACKET])
    else if p == 46 then Production(EXPRESSION, [EXPRESSION, DOT, IDENTIFIER])
    else if p == 47 then Production(EXPRESSION, [OPEN, EXPRESSION, CLOSE])
    else if p == 48 then Production(EXPRESSION, [CONSTANTS])
    else if p == 49 then Production(EXPRESSION, [IDENTIFIER])
    else if p == 50 then Production(EXPRESSION, [OPEN, EXPRESSION, CLOSE, OPEN, EXPRESSIONS, CLOSE])
    else if p == 51 then Production(EXPRESSION, [OPEN_BRACKET, EXPRESSIONS, CLOSE_BRACKET])
    else if p == 52 then Production(EXPRESSION, [OPEN_BRACE, PAIRS, CLOSE_BRACE])
    else if p == 53 then Production(EXPRESSION, [IDENTIFIER, OPEN, EXPRESSIONS, CLOSE])
    else if p == 54 then Production(EXPRESSION, [EXPRESSION, QUESTION, EXPRESSION, COLON, EXPRESSION])
    else Production(BOTTOM, [])
  }

  function ListProduction(p: nat): Production {
    if 55 <= p <= 60 then Production(CONSTANTS, [p + 2])
    else if p == 61 then Production(CONSTANTS, [QUOTED_STRING])
    else if p == 62 then Production(CONSTANTS, [EMPTY_LIST])
    else if p == 63 then Production(QUOTED_STRING, [EMPTY_STRING])
    else if p == 64 then Production(QUOTED_STRING, [PLAIN])
    else if p == 65 then Production(QUOTED_STRING, [ESCAPE])
    else if p == 66 then Production(QUOTED_STRING, [ESCAPE, QUOTED_STRING])
    else if p == 67 then Production(QUOTED_STRING, [PLAIN, QUOTED_STRING])
    else if p == 68 then Production(EXPRESSIONS, [NONEMPTY_EXPRESSIONS])
    else if p == 69 then Production(EXPRESSIONS, [])
    else if p == 70 then Production(NONEMPTY_EXPRESSIONS, [EXPRESSION, COMMA, NONEMPTY_EXPRESSIONS])
    else if p == 71 then Production(NONEMPTY_EXPRESSIONS, [EXPRESSION])
    else if p == 72 then Production(PAIRS, [NONEMPTY_PAIRS])
    else if p == 73 then Production(PAIRS, [])
    else if p == 74 then Production(NONEMPTY_PAIRS, [PAIR, COMMA, NONEMPTY_PAIRS])
    else if p == 75 then Production(NONEMPTY_PAIRS, [PAIR])
    else if p == 76 then Production(PAIR, [IDENTIFIER, COLON, EXPRESSION])
    else if p == 77 then Production(IDENTIFIERS, [NONEMPTY_IDENTIFIERS])
    else if p == 78 then Production(IDENTIFIERS, [])
    else if p == 79 then Production(NONEMPTY_IDENTIFIERS, [IDENTIFIER, COMMA, NONEMPTY_IDENTIFIERS])
    else if p == 80 then Production(NONEMPTY_IDENTIFIERS, [IDENTIFIER])
    else if p == 81 then Production(IDENTIFIER, [NAME])
    else Production(BOTTOM, [])
  }

  function Productions(): seq<Production> {
    seq(82, p requires 0 <= p < 82 => ProductionAt(p))
  }

  // ----- Semantic actions -----

  /** A semantic value.  Lists are native lists in the original, told apart here by what they hold. */
  datatype Value =
    | Null                              // below the first symbol
    | Text(text: string)                // of a token, a name or a string literal
    | Ast(node: Node)
    | Statements(nodes: seq<Node>)
    | Operands(nodes: seq<Node>)
    | Names(names: seq<string>)
    | Pairs                             // of an object, which nothing evaluates
    | Thrown                            // an action has thrown an error, and parsing is over

  function NodeOf(v: Value): Node {
    if v.Ast? then v.node else Unsupported("")
  }

  function TextOf(v: Value): string {
    if v.Text? then v.text else ""
  }

  function NodesOf(v: Value): seq<Node> {
    if v.Statements? || v.Operands? then v.nodes else []
  }

  function NamesOf(v: Value): seq<string> {
    if v.Names? then v.names else []
  }

  predicate AnyThrown(vs: seq<Value>) {
    exists i | 0 <= i < |vs| :: vs[i].Thrown?
  }

  /** What production `p` makes of the values of its right-hand side, `last` being the last token
      shifted; `number` reads the text of a number.  An error thrown lasts. */
  function ActAt(number: string -> Number, p: nat, vs: seq<Value>, last: Token): Value {
    if p >= 82 || |vs| != |ProductionAt(p).rhs| then Null
    else if AnyThrown(vs) then Thrown
    else if p <= 26 then StatementAct(p, vs)
    else if p <= 54 then ExpressionAct(p, vs)
    else ListAct(number, p, vs, last)
  }

  function StatementAct(p: nat, vs: seq<Value>): Value
    requires p <= 26 && |vs| == |ProductionAt(p).rhs|
  {
    if p == 0 then Null
    else if p == 2 || p == 3 then Statements([])
    else if p == 4 then Statements([NodeOf(vs[0])] + NodesOf(vs[1]))
    else if p == 8 then Ast(ConstDecl(TextOf(vs[1]), FunDef(NamesOf(vs[3]), Sequence(NodesOf(vs[6])))))
    else if p == 11 then Ast(Block(Sequence(NodesOf(vs[1]))))
    else if p == 14 then Ast(Node.Return(NodeOf(vs[1])))
    else if p == 15 then Ast(Unsupported("break_statement"))
    else if p == 16 then Ast(Unsupported("continue_statement"))
    else if p == 17 then Ast(VarDecl(TextOf(vs[1]), NodeOf(vs[3])))
    else if p == 18 then Ast(ConstDecl(TextOf(vs[1]), NodeOf(vs[3])))
    else if p == 19 then AssignmentTo(NodeOf(vs[0]), NodeOf(vs[2]))
    else if p == 20 then
      Ast(CondStmt(NodeOf(vs[2]), Block(Sequence(NodesOf(vs[5]))), Block(Sequence(NodesOf(vs[9])))))
    else if p == 21 then Ast(CondStmt(NodeOf(vs[2]), Block(Sequence(NodesOf(vs[5]))), Sequence([NodeOf(vs[8])])))
    else if p == 22 then Ast(While(NodeOf(vs[2]), Block(Sequence(NodesOf(vs[5])))))
    else if p == 23 then Ast(For(NodeOf(vs[2]), NodeOf(vs[3]), NodeOf(vs[5]), NodesOf(vs[8])))
    else vs[0]
  }

  /** Only names and properties can be assigned to. */
  function AssignmentTo(target: Node, value: Node): Value {
    match target
    case Name(x) => Ast(Assignment(x, value))
    case Unsupported(tag) => if tag == "property_access" then Ast(Unsupported("property_assignment")) else Thrown
    case _ => Thrown
  }

  function ExpressionAct(p: nat, vs: seq<Value>): Value
    requires 27 <= p <= 54 && |vs| == |ProductionAt(p).rhs|
  {
    if p <= 31 || 37 <= p <= 42 then Ast(Application(Name(TextOf(vs[1])), [NodeOf(vs[0]), NodeOf(vs[2])]))
    else if p <= 33 then Ast(Application(Name(TextOf(vs[0])), [Lit(Num(Finite(0.0))), NodeOf(vs[1])]))
    else if p == 34 then Ast(Application(Name(TextOf(vs[0])), [NodeOf(vs[1])]))
    else if p <= 36 then Ast(BoolOp(TextOf(vs[1]), NodeOf(vs[0]), NodeOf(vs[2])))
    else if p == 43 then Ast(FunDef(NamesOf(vs[1]), Node.Return(NodeOf(vs[4]))))
    else if p == 44 then
      (match NodeOf(vs[0])
       case Name(x) => Ast(FunDef([x], Node.Return(NodeOf(vs[2]))))
       case _ => Thrown)
    else if p <= 46 then Ast(Unsupported("property_access"))
    else if p == 47 then vs[1]
    else if p == 48 then vs[0]
    else if p == 49 then Ast(Name(TextOf(vs[0])))
    else if p == 50 then Ast(Application(NodeOf(vs[1]), NodesOf(vs[4])))
    else if p == 51 then Ast(Unsupported("array_expression"))
    else if p == 52 then Ast(Unsupported("object_expression"))
    else if p == 53 then Ast(Application(Name(TextOf(vs[0])), NodesOf(vs[2])))
    else Ast(CondExpr(NodeOf(vs[0]), NodeOf(vs[2]), NodeOf(vs[4])))
  }

  /** The two readings of a number agree on the digits that an integer token can have. */
  function ListAct(number: string -> Number, p: nat, vs: seq<Value>, last: Token): Value
    requires 55 <= p < 82 && |vs| == |ProductionAt(p).rhs|
  {
    if p <= 56 then Ast(Lit(Num(number(last.text))))
    else if p == 57 then Ast(Lit(Bool(true)))
    else if p == 58 then Ast(Lit(Bool(false)))
    else if p == 59 then Ast(Lit(Num(NotANumber)))
    else if p == 60 then Ast(Lit(Num(PosInfinity)))
    else if p == 61 then Ast(Lit(Str(TextOf(vs[0]))))
    else if p == 62 then Ast(EmptyListExpr)
    else if p == 63 then Text("")
    else if p == 65 then Text(Unescape(last.text))
    else if p == 66 then Text(Unescape(TextOf(vs[0])) + TextOf(vs[1]))
    else if p == 67 then Text(TextOf(vs[0]) + TextOf(vs[1]))
    else if p == 69 then Operands([])
    else if p == 70 then Operands([NodeOf(vs[0])] + NodesOf(vs[2]))
    else if p == 71 then Operands([NodeOf(vs[0])])
    else if 73 <= p <= 76 then Pairs
    else if p == 78 then Names([])
    else if p == 79 then Names([TextOf(vs[0])] + NamesOf(vs[2]))
    else if p == 80 then Names([TextOf(vs[0])])
    else if p == 81 then Text(last.text)
    else vs[0]
  }

  /** What an escape stands for; an unknown one keeps its backslash, an escaped line end vanishes. */
  function Unescape(t: string): string {
    if t == "b" then "\U{8}"
    else if t == "n" then "\n"
    else if t == "r" then "\r"
    else if t == "t" then "\t"
    else if t == "'" then "'"
    else if t == "\"" then "\""
    else if t == "\\" then "\\"
    else if t == "\n" || t == "\r\n" then ""
    else "\\" + t
  }

  // ----- Tables -----

  /** A table for this grammar: only which actions and gotos it has is left open. */
  ghost predicate IsForGrammar(number: string -> Number, t: Table<Value>) {
    && t.productions == Productions() && t.accepting == 1 && t.nothing == Null
    && (forall k :: t.leaf(k) == Text(k.text))
    && (forall p, vs, ls, last :: t.act(p, vs, ls, last) == ActAt(number, p, vs, last))
  }

  // ----- What is built -----

  /** Symbols that only reductions put on the stack. */
  predicate IsPhrase(k: nat) {
    (3 <= k <= 4) || (7 <= k <= 10) || k == IDENTIFIER || k == IDENTIFIERS || (18 <= k <= 21) || (32 <= k <= 33) ||
    (52 <= k <= 54) || k == QUOTED_STRING || k == NONEMPTY_EXPRESSIONS || (70 <= k <= 72)
  }
}

/** The trees that the grammar's semantic actions build, exactly: every production builds one of them from the
    values of its parts.
 */
module Trees {
  import opened Options
  import opened Syntax
  import opened LRParser
  import opened Lexer
  import opened Spellings
  import opened Rendering
  import opened Grammar

  // ----- Trees -----

  /** Some numeral is read as `x`. */
  ghost predicate HasNumeral(number: string -> Number, x: Number) {
    exists w :: IsNumeral(w) && number(w) == x
  }

  predicate IsInfixName(op: string) {
    op == "+" || op == "-" || op == "*" || op == "/" || op == "%" || op == "===" || op == "!==" || op == ">" ||
    op == "<" || op == ">=" || op == "<="
  }

  ghost predicate AllNames(xs: seq<string>) {
    forall i | 0 <= i < |xs| :: IsName(xs[i])
  }

  /** What an expression can be. */
  ghost predicate IsExprTree(number: string -> Number, n: Node)
    decreases n, 0
  {
    match n
    case Lit(Num(x)) => x == NotANumber || x == PosInfinity || HasNumeral(number, x)
    case Lit(_) => true
    case EmptyListExpr => true
    case Name(x) => IsName(x)
    case CondExpr(p, c, a) => IsExprTree(number, p) && IsExprTree(number, c) && IsExprTree(number, a)
    case BoolOp(op, l, r) => (op == "&&" || op == "||") && IsExprTree(number, l) && IsExprTree(number, r)
    case FunDef(ps, b) => AllNames(ps) && b.Return? && IsExprTree(number, b.expr)
    case Application(f, es) =>
      || IsSign(number, n)
      || ((IsExprTree(number, f) || IsOperation(f, es)) && forall i | 0 <= i < |es| :: IsExprTree(number, es[i]))
    case Unsupported(tag) => tag == "property_access" || tag == "array_expression" || tag == "object_expression"
    case _ => false
  }

  /** An operator has its own number of operands. */
  predicate IsOperation(f: Node, es: seq<Node>) {
    f.Name? && ((IsInfixName(f.name) && |es| == 2) || (f.name == "!" && |es| == 1))
  }

  /** A sign is an operator with zero as its first operand. */
  ghost predicate IsSign(number: string -> Number, n: Node)
    requires n.Application?
    decreases n, -1
  {
    && (n.operator == Name("+") || n.operator == Name("-"))
    && |n.operands| == 2 && n.operands[0] == Lit(Num(Finite(0.0))) && IsExprTree(number, n.operands[1])
  }

  ghost predicate AreExprTrees(number: string -> Number, es: seq<Node>) {
    forall i | 0 <= i < |es| :: IsExprTree(number, es[i])
  }

  ghost predicate IsBlockTree(number: string -> Number, n: Node)
    decreases n, 0
  {
    n.Block? && n.body.Sequence? && forall i | 0 <= i < |n.body.stmts| :: IsStmtTree(number, n.body.stmts[i])
  }

  ghost predicate IsAssignmentTree(number: string -> Number, n: Node)
    decreases n, 0
  {
    (n.Assignment? && IsName(n.name) && IsExprTree(number, n.value)) || n == Unsupported("property_assignment")
  }

  /** What a statement can be: loop bodies and consequents are blocks, an alternative is one or another conditional. */
  ghost predicate IsStmtTree(number: string -> Number, n: Node)
    decreases n, 1
  {
    match n
    case ConstDecl(x, e) => IsName(x) && (IsExprTree(number, e) || IsFunctionTree(number, e))
    case VarDecl(x, e) => IsName(x) && IsExprTree(number, e)
    case CondStmt(p, c, a) =>
      IsExprTree(number, p) && IsBlockTree(number, c) && (IsBlockTree(number, a) || IsElseIfTree(number, a))
    case Return(e) => IsExprTree(number, e)
    case Block(_) => IsBlockTree(number, n)
    case While(p, b) => IsExprTree(number, p) && IsBlockTree(number, b)
    case For(i, p, f, b) =>
      && ((i.VarDecl? && IsName(i.name) && IsExprTree(number, i.value)) || IsAssignmentTree(number, i))
      && IsExprTree(number, p) && IsAssignmentTree(number, f) && forall k | 0 <= k < |b| :: IsStmtTree(number, b[k])
    case Assignment(_, _) => IsAssignmentTree(number, n)
    case Unsupported(tag) =>
      tag == "break_statement" || tag == "continue_statement" || tag == "property_assignment" || IsExprTree(number, n)
    case _ => IsExprTree(number, n)
  }

  /** The value of a function declaration. */
  ghost predicate IsFunctionTree(number: string -> Number, n: Node)
    decreases n, 0
  {
    && n.FunDef? && AllNames(n.parameters) && n.body.Sequence?
    && forall i | 0 <= i < |n.body.stmts| :: IsStmtTree(number, n.body.stmts[i])
  }

  ghost predicate IsElseIfTree(number: string -> Number, n: Node)
    decreases n, 0
  {
    n.Sequence? && |n.stmts| == 1 && n.stmts[0].CondStmt? && IsStmtTree(number, n.stmts[0])
  }

  ghost predicate AreStmtTrees(number: string -> Number, ss: seq<Node>) {
    forall i | 0 <= i < |ss| :: IsStmtTree(number, ss[i])
  }

  ghost predicate IsProgramTree(number: string -> Number, n: Node) {
    n.Sequence? && AreStmtTrees(number, n.stmts)
  }

  // ----- Tokens -----

  predicate IsOperatorToken(k: nat) {
    34 <= k <= 47
  }

  /** A token is no phrase; one for a name spells a name, one for a number a numeral, and a mark or a word itself. */
  predicate IsProper(k: nat, text: string) {
    && !IsPhrase(k) && (k == NAME ==> IsName(text)) && (k == 57 || k == 58 ==> IsNumeral(text))
    && (IsOperatorToken(k) ==> MarkRule(k).Some?)
    && (SymbolRule(k).Some? ==> text == SymbolRule(k).value.1)
  }

  // ----- Sorts -----

  /** The sort of value a phrase or token of each kind has, unless an error has been thrown. */
  ghost predicate HasSort(number: string -> Number, k: nat, v: Value) {
    v.Thrown? ||
    if k == PROGRAM || k == STATEMENTS then v.Statements? && AreStmtTrees(number, v.nodes)
    else if k == STATEMENT || k == WHILE_STATEMENT || k == FOR_STATEMENT || k == CONST_DECLARATION then
      v.Ast? && IsStmtTree(number, v.node)
    else if k == IF_STATEMENT then v.Ast? && v.node.CondStmt? && IsStmtTree(number, v.node)
    else if k == LET_DECLARATION then v.Ast? && v.node.VarDecl? && IsStmtTree(number, v.node)
    else if k == ASSIGNMENT || k == FOR_FINALISER then v.Ast? && IsAssignmentTree(number, v.node)
    else if k == FOR_INITIALISER then
      v.Ast? && ((v.node.VarDecl? && IsStmtTree(number, v.node)) || IsAssignmentTree(number, v.node))
    else if k == EXPRESSION || k == CONSTANTS then v.Ast? && IsExprTree(number, v.node)
    else if k == EXPRESSIONS || k == NONEMPTY_EXPRESSIONS then v.Operands? && AreExprTrees(number, v.nodes)
    else if k == IDENTIFIERS || k == NONEMPTY_IDENTIFIERS then v.Names? && AllNames(v.names)
    else if k == IDENTIFIER then v.Text? && IsName(v.text)
    else if k == PAIRS || k == NONEMPTY_PAIRS || k == PAIR || k == BOTTOM then true
    else if k == QUOTED_STRING then v.Text?
    else v.Text? && IsProper(k, v.text)
  }

  ghost predicate HaveSorts(number: string -> Number, ks: seq<nat>, vs: seq<Value>) {
    |vs| == |ks| && forall i | 0 <= i < |ks| :: HasSort(number, ks[i], vs[i])
  }

  /** The texts that some productions take from the last token are those of their own. */
  ghost predicate LastFits(p: nat, last: Token) {
    (p == 81 ==> IsName(last.text)) && (p == 55 || p == 56 ==> IsNumeral(last.text))
  }

  /** Every action builds a value of the sort of its phrase from values of the sorts of its parts. */
  lemma ActHasSort(number: string -> Number, p: nat, vs: seq<Value>, last: Token)
    requires p < 82 && HaveSorts(number, ProductionAt(p).rhs, vs) && LastFits(p, last)
    ensures HasSort(number, ProductionAt(p).lhs, ActAt(number, p, vs, last))
  {
    hide IsProper, IsName, IsNumeral;
    if AnyThrown(vs) || p == 0 {
    } else if p <= 26 {
      StatementHasSort(number, p, vs);
    } else if p <= 54 {
      ExpressionHasSort(number, p, vs);
    } else {
      ListHasSort(number, p, vs, last);
    }
  }

  lemma StatementHasSort(number: string -> Number, p: nat, vs: seq<Value>)
    requires 0 < p <= 26 && HaveSorts(number, ProductionAt(p).rhs, vs) && !AnyThrown(vs)
    ensures HasSort(number, ProductionAt(p).lhs, StatementAct(p, vs))
  {
    hide HasSort;
    if p == 2 || p == 3 || p == 15 || p == 16 {
      EmptyHasSort(number);
    } else if p == 4 {
      assert HasSort(number, STATEMENT, vs[0]) && HasSort(number, STATEMENTS, vs[1]);
      AddStatement(number, vs[0], vs[1]);
    } else if p == 8 {
      assert HasSort(number, IDENTIFIER, vs[1]) && HasSort(number, IDENTIFIERS, vs[3]);
      assert HasSort(number, STATEMENTS, vs[6]);
      DeclaresFunction(number, vs[1], vs[3], vs[6]);
    } else if p == 11 {
      assert HasSort(number, STATEMENTS, vs[1]);
      Blocks(number, vs[1]);
    } else if p == 14 || p == 17 || p == 18 || p == 19 {
      assert HasSort(number, ProductionAt(p).rhs[1], vs[1]);
      SimpleHasSort(number, p, vs);
    } else if p == 20 {
      assert HasSort(number, EXPRESSION, vs[2]) && HasSort(number, STATEMENTS, vs[5]);
      assert HasSort(number, STATEMENTS, vs[9]);
      Branches(number, vs[2], vs[5], vs[9]);
    } else if p == 21 {
      assert HasSort(number, EXPRESSION, vs[2]) && HasSort(number, STATEMENTS, vs[5]);
      assert HasSort(number, IF_STATEMENT, vs[8]);
      ElseIf(number, vs[2], vs[5], vs[8]);
    } else if p == 22 {
      assert HasSort(number, EXPRESSION, vs[2]) && HasSort(number, STATEMENTS, vs[5]);
      Loops(number, vs[2], vs[5]);
    } else if p == 23 {
      assert HasSort(number, FOR_INITIALISER, vs[2]) && HasSort(number, EXPRESSION, vs[3]);
      assert HasSort(number, FOR_FINALISER, vs[5]) && HasSort(number, STATEMENTS, vs[8]);
      LoopsFor(number, vs[2], vs[3], vs[5], vs[8]);
    } else {
      assert HasSort(number, ProductionAt(p).rhs[0], vs[0]);
      PassesOn(number, p, vs[0]);
    }
  }

  // ----- One production after another -----

  lemma EmptyHasSort(number: string -> Number)
    ensures HasSort(number, STATEMENTS, Statements([])) && HasSort(number, EXPRESSIONS, Operands([]))
    ensures HasSort(number, IDENTIFIERS, Names([]))
    ensures HasSort(number, STATEMENT, Ast(Unsupported("break_statement")))
    ensures HasSort(number, STATEMENT, Ast(Unsupported("continue_statement")))
  {
  }

  lemma AddStatement(number: string -> Number, v: Value, more: Value)
    requires HasSort(number, STATEMENT, v) && HasSort(number, STATEMENTS, more) && !v.Thrown? && !more.Thrown?
    ensures HasSort(number, STATEMENTS, Statements([NodeOf(v)] + NodesOf(more)))
  {
    hide IsStmtTree, IsExprTree;
  }

  lemma DeclaresFunction(number: string -> Number, name: Value, ps: Value, body: Value)
    requires HasSort(number, IDENTIFIER, name) && HasSort(number, IDENTIFIERS, ps) && HasSort(number, STATEMENTS, body)
    requires !name.Thrown? && !ps.Thrown? && !body.Thrown?
    ensures HasSort(number, STATEMENT, Ast(ConstDecl(TextOf(name), FunDef(NamesOf(ps), Sequence(NodesOf(body))))))
  {
    hide IsName, IsExprTree;
    assert IsFunctionTree(number, FunDef(NamesOf(ps), Sequence(NodesOf(body))));
  }

  lemma Blocks(number: string -> Number, body: Value)
    requires HasSort(number, STATEMENTS, body) && !body.Thrown?
    ensures var n := Block(Sequence(NodesOf(body))); IsBlockTree(number, n) && HasSort(number, STATEMENT, Ast(n))
  {
    hide IsExprTree;
  }

  lemma SimpleHasSort(number: string -> Number, p: nat, vs: seq<Value>)
    requires (p == 14 || p == 17 || p == 18 || p == 19) && HaveSorts(number, ProductionAt(p).rhs, vs)
    requires !AnyThrown(vs)
    ensures HasSort(number, ProductionAt(p).lhs, StatementAct(p, vs))
  {
    hide IsExprTree, IsName, IsProper, IsNumeral;
    if p == 14 {
      assert HasSort(number, EXPRESSION, vs[1]);
    } else if p == 19 {
      assert HasSort(number, EXPRESSION, vs[0]) && HasSort(number, EXPRESSION, vs[2]);
      Assigns(number, vs[0], vs[2]);
    } else {
      assert HasSort(number, IDENTIFIER, vs[1]) && HasSort(number, EXPRESSION, vs[3]);
    }
  }

  lemma Assigns(number: string -> Number, target: Value, e: Value)
    requires HasSort(number, EXPRESSION, target) && HasSort(number, EXPRESSION, e) && !target.Thrown? && !e.Thrown?
    ensures HasSort(number, ASSIGNMENT, AssignmentTo(NodeOf(target), NodeOf(e)))
  {
    hide IsName;
  }

  lemma Branches(number: string -> Number, e: Value, yes: Value, no: Value)
    requires HasSort(number, EXPRESSION, e) && HasSort(number, STATEMENTS, yes) && HasSort(number, STATEMENTS, no)
    requires !e.Thrown? && !yes.Thrown? && !no.Thrown?
    ensures HasSort(number, IF_STATEMENT,
                    Ast(CondStmt(NodeOf(e), Block(Sequence(NodesOf(yes))), Block(Sequence(NodesOf(no))))))
  {
    hide IsExprTree, IsBlockTree;
    Blocks(number, yes);
    Blocks(number, no);
  }

  lemma ElseIf(number: string -> Number, e: Value, yes: Value, no: Value)
    requires HasSort(number, EXPRESSION, e) && HasSort(number, STATEMENTS, yes) && HasSort(number, IF_STATEMENT, no)
    requires !e.Thrown? && !yes.Thrown? && !no.Thrown?
    ensures HasSort(number, IF_STATEMENT,
                    Ast(CondStmt(NodeOf(e), Block(Sequence(NodesOf(yes))), Sequence([NodeOf(no)]))))
  {
    hide IsExprTree, IsBlockTree;
    Blocks(number, yes);
    assert IsElseIfTree(number, Sequence([NodeOf(no)]));
  }

  lemma Loops(number: string -> Number, e: Value, body: Value)
    requires HasSort(number, EXPRESSION, e) && HasSort(number, STATEMENTS, body) && !e.Thrown? && !body.Thrown?
    ensures HasSort(number, WHILE_STATEMENT, Ast(While(NodeOf(e), Block(Sequence(NodesOf(body))))))
  {
    hide IsExprTree, IsBlockTree;
    Blocks(number, body);
  }

  lemma LoopsFor(number: string -> Number, init: Value, e: Value, fin: Value, body: Value)
    requires HasSort(number, FOR_INITIALISER, init) && HasSort(number, EXPRESSION, e)
    requires HasSort(number, FOR_FINALISER, fin) && HasSort(number, STATEMENTS, body)
    requires !init.Thrown? && !e.Thrown? && !fin.Thrown? && !body.Thrown?
    ensures HasSort(number, FOR_STATEMENT, Ast(For(NodeOf(init), NodeOf(e), NodeOf(fin), NodesOf(body))))
  {
    hide IsExprTree, IsName;
  }

  /** The productions that hand on the value of their first part. */
  lemma PassesOn(number: string -> Number, p: nat, v: Value)
    requires p == 1 || (5 <= p <= 7) || (9 <= p <= 10) || (12 <= p <= 13) || (24 <= p <= 26) || p == 48 || p == 64 ||
             p == 68 || p == 72 || p == 77
    requires HasSort(number, ProductionAt(p).rhs[0], v)
    ensures HasSort(number, ProductionAt(p).lhs, v)
  {
    hide IsName, IsNumeral, MarkRule;
    if p == 13 && v.Ast? { ExprIsStmt(number, v.node); }
    if (p == 12 || p == 25) && v.Ast? { AssignmentIsStmt(number, v.node); }
  }

  lemma ExprIsStmt(number: string -> Number, n: Node)
    requires IsExprTree(number, n)
    ensures IsStmtTree(number, n)
  {
  }

  lemma AssignmentIsStmt(number: string -> Number, n: Node)
    requires IsAssignmentTree(number, n)
    ensures IsStmtTree(number, n)
  {
  }

  lemma ExpressionHasSort(number: string -> Number, p: nat, vs: seq<Value>)
    requires 27 <= p <= 54 && HaveSorts(number, ProductionAt(p).rhs, vs) && !AnyThrown(vs)
    ensures HasSort(number, ProductionAt(p).lhs, ExpressionAct(p, vs))
  {
    hide HasSort, IsExprTree;
    if p <= 42 {
      OperatorHasSort(number, p, vs);
    } else if p <= 44 || p == 54 {
      AbstractionHasSort(number, p, vs);
    } else if p <= 46 || p == 51 || p == 52 {
      UnsupportedIsExpression(number);
    } else if p == 50 {
      assert HasSort(number, EXPRESSION, vs[1]) && HasSort(number, EXPRESSIONS, vs[4]);
      Applies(number, vs[1], vs[4]);
    } else if p == 53 {
      assert HasSort(number, IDENTIFIER, vs[0]) && HasSort(number, EXPRESSIONS, vs[2]);
      Uses(number, vs[0]);
      Applies(number, Ast(Name(TextOf(vs[0]))), vs[2]);
    } else if p == 48 {
      assert HasSort(number, CONSTANTS, vs[0]);
      PassesOn(number, p, vs[0]);
    } else if p == 49 {
      assert HasSort(number, IDENTIFIER, vs[0]);
      Uses(number, vs[0]);
    } else {
      assert HasSort(number, EXPRESSION, vs[1]);
    }
  }

  lemma OperatorHasSort(number: string -> Number, p: nat, vs: seq<Value>)
    requires 27 <= p <= 42 && HaveSorts(number, ProductionAt(p).rhs, vs) && !AnyThrown(vs)
    ensures HasSort(number, EXPRESSION, ExpressionAct(p, vs))
  {
    hide HasSort, IsExprTree;
    if p <= 31 || p >= 35 {
      var op := if p <= 31 then p + 7 else p + 5;
      assert HasSort(number, EXPRESSION, vs[0]) && HasSort(number, op, vs[1]) && HasSort(number, EXPRESSION, vs[2]);
      Infixes(number, op, vs[0], vs[1], vs[2]);
    } else {
      var op := if p == 32 then MINUS else if p == 33 then PLUS else NOT;
      assert HasSort(number, op, vs[0]) && HasSort(number, EXPRESSION, vs[1]);
      Prefixes(number, op, vs[0], vs[1]);
    }
  }

  lemma Infixes(number: string -> Number, op: nat, a: Value, o: Value, b: Value)
    requires (34 <= op <= 38 || 40 <= op <= 47) && HasSort(number, op, o)
    requires HasSort(number, EXPRESSION, a) && HasSort(number, EXPRESSION, b)
    requires !a.Thrown? && !o.Thrown? && !b.Thrown?
    ensures var n := if op <= 41 && op >= 40 then BoolOp(TextOf(o), NodeOf(a), NodeOf(b))
                     else Application(Name(TextOf(o)), [NodeOf(a), NodeOf(b)]);
            HasSort(number, EXPRESSION, Ast(n))
  {
    OperatorSpelling(op, TextOf(o));
    hide IsProper, IsNumeral, IsName;
    assert !IsPhrase(op);
  }

  lemma OperatorSpelling(op: nat, text: string)
    requires IsOperatorToken(op) && IsProper(op, text)
    ensures if op == NOT then text == "!" else if op == AND then text == "&&" else if op == OR then text == "||"
            else IsInfixName(text)
    ensures op == PLUS ==> text == "+"
    ensures op == MINUS ==> text == "-"
  {
  }

  lemma Prefixes(number: string -> Number, op: nat, o: Value, a: Value)
    requires (op == PLUS || op == MINUS || op == NOT) && HasSort(number, op, o) && HasSort(number, EXPRESSION, a)
    requires !o.Thrown? && !a.Thrown?
    ensures var n := Application(Name(TextOf(o)),
                                 if op == NOT then [NodeOf(a)] else [Lit(Num(Finite(0.0))), NodeOf(a)]);
            HasSort(number, EXPRESSION, Ast(n))
  {
    OperatorSpelling(op, TextOf(o));
    hide IsProper, IsNumeral, IsName, HasNumeral;
    assert !IsPhrase(op);
    if op != NOT {
      assert IsSign(number, Application(Name(TextOf(o)), [Lit(Num(Finite(0.0))), NodeOf(a)]));
    }
  }

  lemma Applies(number: string -> Number, f: Value, es: Value)
    requires HasSort(number, EXPRESSION, f) && HasSort(number, EXPRESSIONS, es) && !f.Thrown? && !es.Thrown?
    ensures HasSort(number, EXPRESSION, Ast(Application(NodeOf(f), NodesOf(es))))
  {
    var n := Application(NodeOf(f), NodesOf(es));
    assert IsExprTree(number, n);
    hide IsExprTree;
  }

  lemma Uses(number: string -> Number, v: Value)
    requires HasSort(number, IDENTIFIER, v) && !v.Thrown?
    ensures HasSort(number, EXPRESSION, Ast(Name(TextOf(v))))
  {
    hide IsName;
  }

  lemma UnsupportedIsExpression(number: string -> Number)
    ensures HasSort(number, EXPRESSION, Ast(Unsupported("property_access")))
    ensures HasSort(number, EXPRESSION, Ast(Unsupported("array_expression")))
    ensures HasSort(number, EXPRESSION, Ast(Unsupported("object_expression")))
  {
  }

  lemma AbstractionHasSort(number: string -> Number, p: nat, vs: seq<Value>)
    requires (43 <= p <= 44 || p == 54) && HaveSorts(number, ProductionAt(p).rhs, vs) && !AnyThrown(vs)
    ensures HasSort(number, EXPRESSION, ExpressionAct(p, vs))
  {
    hide IsName, IsProper, IsNumeral;
    if p == 43 {
      assert HasSort(number, IDENTIFIERS, vs[1]) && HasSort(number, EXPRESSION, vs[4]);
    } else {
      assert HasSort(number, EXPRESSION, vs[0]) && HasSort(number, EXPRESSION, vs[2]);
      if p == 54 { assert HasSort(number, EXPRESSION, vs[4]); }
    }
  }

  lemma ListHasSort(number: string -> Number, p: nat, vs: seq<Value>, last: Token)
    requires 55 <= p < 82 && HaveSorts(number, ProductionAt(p).rhs, vs) && !AnyThrown(vs) && LastFits(p, last)
    ensures HasSort(number, ProductionAt(p).lhs, ListAct(number, p, vs, last))
  {
    hide Unescape, IsName, IsNumeral, IsProper, IsStmtTree;
    if p <= 62 {
      ConstantHasSort(number, p, vs, last);
    } else if p == 70 {
      assert HasSort(number, EXPRESSION, vs[0]) && HasSort(number, NONEMPTY_EXPRESSIONS, vs[2]);
      AddOperand(number, vs[0], vs[2]);
    } else if p == 79 {
      assert HasSort(number, IDENTIFIER, vs[0]) && HasSort(number, NONEMPTY_IDENTIFIERS, vs[2]);
    } else if p == 64 || p == 68 || p == 71 || p == 72 || p == 77 || p == 80 {
      assert HasSort(number, ProductionAt(p).rhs[0], vs[0]);
    }
  }

  lemma ConstantHasSort(number: string -> Number, p: nat, vs: seq<Value>, last: Token)
    requires 55 <= p <= 62 && HaveSorts(number, ProductionAt(p).rhs, vs) && !AnyThrown(vs) && LastFits(p, last)
    ensures HasSort(number, CONSTANTS, ListAct(number, p, vs, last))
  {
    hide IsNumeral, IsName, IsProper;
    if p <= 56 { assert HasNumeral(number, number(last.text)); }
  }

  lemma AddOperand(number: string -> Number, v: Value, more: Value)
    requires HasSort(number, EXPRESSION, v) && HasSort(number, NONEMPTY_EXPRESSIONS, more)
    requires !v.Thrown? && !more.Thrown?
    ensures HasSort(number, NONEMPTY_EXPRESSIONS, Operands([NodeOf(v)] + NodesOf(more)))
  {
    hide IsExprTree;
  }

  // ----- Less exactly -----

  /** They have the shape that the properties of evaluation are proved for. */
  lemma {:induction false} ExprTreeIsExpr(number: string -> Number, n: Node)
    requires IsExprTree(number, n)
    ensures IsExpr(n)
    decreases n, 0
  {
    hide IsNumeral;
    match n
    case CondExpr(p, c, a) =>
      ExprTreeIsExpr(number, p);
      ExprTreeIsExpr(number, c);
      ExprTreeIsExpr(number, a);
    case BoolOp(_, l, r) =>
      ExprTreeIsExpr(number, l);
      ExprTreeIsExpr(number, r);
    case FunDef(ps, b) =>
      ExprTreeIsExpr(number, b.expr);
      NamesAreIdentifiers(ps);
      assert IsStmt(b);
    case Application(f, es) =>
      if IsSign(number, n) { ExprTreeIsExpr(number, es[1]); }
      else {
        if IsExprTree(number, f) { ExprTreeIsExpr(number, f); }
        forall i | 0 <= i < |es| ensures IsExpr(es[i]) { ExprTreeIsExpr(number, es[i]); }
      }
    case _ =>
  }

  lemma NameIsIdentifier(x: string)
    requires IsName(x)
    ensures IsIdentifier(x)
  {
    hide RunLength, IsName, RESERVED;
    NameIff(x);
  }

  lemma NamesAreIdentifiers(xs: seq<string>)
    requires AllNames(xs)
    ensures forall i | 0 <= i < |xs| :: IsIdentifier(xs[i])
  {
    hide IsName, IsIdentifier;
    forall i | 0 <= i < |xs| ensures IsIdentifier(xs[i]) { NameIsIdentifier(xs[i]); }
  }

  lemma {:induction false} StmtTreeIsStmt(number: string -> Number, n: Node)
    requires IsStmtTree(number, n)
    ensures IsStmt(n)
    decreases n, 1
  {
    hide IsExprTree, IsExpr, IsName, IsIdentifier;
    match n
    case ConstDecl(x, e) =>
      NameIsIdentifier(x);
      if IsExprTree(number, e) { ExprTreeIsExpr(number, e); } else { FunctionTreeIsExpr(number, e); }
    case VarDecl(x, e) =>
      NameIsIdentifier(x);
      ExprTreeIsExpr(number, e);
    case CondStmt(p, c, a) =>
      ExprTreeIsExpr(number, p);
      BlockTreeIsStmt(number, c);
      if IsBlockTree(number, a) { BlockTreeIsStmt(number, a); } else { StmtTreeIsStmt(number, a.stmts[0]); }
    case Return(e) => ExprTreeIsExpr(number, e);
    case Block(_) => BlockTreeIsStmt(number, n);
    case While(p, b) =>
      ExprTreeIsExpr(number, p);
      BlockTreeIsStmt(number, b);
    case For(i, p, f, b) =>
      ExprTreeIsExpr(number, p);
      PartIsStmt(number, i);
      PartIsStmt(number, f);
      forall k | 0 <= k < |b| ensures IsStmt(b[k]) { StmtTreeIsStmt(number, b[k]); }
    case Assignment(_, _) => PartIsStmt(number, n);
    case Unsupported(_) => UnsupportedIsStmt(n);
    case _ =>
      ExprTreeIsExpr(number, n);
      TreeIsStmt(number, n);
  }

  lemma UnsupportedIsStmt(n: Node)
    requires n.Unsupported?
    ensures IsStmt(n)
  {
  }

  lemma TreeIsStmt(number: string -> Number, n: Node)
    requires IsExpr(n) && IsExprTree(number, n)
    ensures IsStmt(n)
  {
  }

  /** The initialiser or finaliser of a for loop, which are statements without parts that are. */
  lemma PartIsStmt(number: string -> Number, n: Node)
    requires (n.VarDecl? && IsName(n.name) && IsExprTree(number, n.value)) || IsAssignmentTree(number, n)
    ensures IsStmt(n) && (n.VarDecl? || n.Assignment? || n.Unsupported?)
  {
    hide IsExprTree, IsName, IsIdentifier;
    if n.VarDecl? || n.Assignment? {
      NameIsIdentifier(n.name);
      ExprTreeIsExpr(number, n.value);
    } else {
      UnsupportedIsStmt(n);
    }
  }

  lemma {:induction false} FunctionTreeIsExpr(number: string -> Number, n: Node)
    requires IsFunctionTree(number, n)
    ensures IsExpr(n)
    decreases n, 0
  {
    hide IsStmtTree, IsName, IsIdentifier;
    NamesAreIdentifiers(n.parameters);
    forall i | 0 <= i < |n.body.stmts| ensures IsStmt(n.body.stmts[i]) { StmtTreeIsStmt(number, n.body.stmts[i]); }
    assert IsStmt(n.body);
  }

  lemma {:induction false} BlockTreeIsStmt(number: string -> Number, n: Node)
    requires IsBlockTree(number, n)
    ensures IsStmt(n)
    decreases n, 0
  {
    hide IsStmtTree;
    forall i | 0 <= i < |n.body.stmts| ensures IsStmt(n.body.stmts[i]) { StmtTreeIsStmt(number, n.body.stmts[i]); }
    assert IsStmt(n.body);
  }
}

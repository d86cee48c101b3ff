/** Abstract syntax of the "Source" language, as built by the parser's semantic actions.

    The original keeps one tagged object per node and dispatches on the tag; a linked list is
    itself a node (a statement sequence).  Parameter lists are already reduced to names here.
 */
module Syntax {
  import opened Characters

  /** A JavaScript number, with arithmetic on the finite ones left to the host. */
  datatype Number = Finite(r: real) | NotANumber | PosInfinity | NegInfinity

  /** The three kinds of node value that evaluate to themselves. */
  datatype Prim = Num(n: Number) | Str(s: string) | Bool(b: bool)

  datatype Node =
    | Lit(p: Prim)
    | EmptyListExpr
    | Name(name: string)
    | ConstDecl(name: string, value: Node)
    | VarDecl(name: string, value: Node)
    | CondStmt(predicate_: Node, consequent: Node, alternative: Node)
    | CondExpr(predicate_: Node, consequent: Node, alternative: Node)
    | BoolOp(op: string, left: Node, right: Node)
    | FunDef(parameters: seq<string>, body: Node)
    | Sequence(stmts: seq<Node>)
    | Application(operator: Node, operands: seq<Node>)
    | Return(expr: Node)
    | Block(body: Node)
    | Assignment(name: string, value: Node)
    | While(predicate_: Node, statements: Node)
    | For(init: Node, predicate_: Node, finaliser: Node, loopBody: seq<Node>)
    | Unsupported(tag: string)  // break, continue, arrays, objects, property access: no case in evaluate

  /** What lexer rule 38 accepts: [A-Za-z_][A-Za-z0-9_]* */
  predicate IsIdentifier(s: string) {
    |s| > 0 && IsLetterOrUnderscore(s[0]) && forall i | 0 <= i < |s| :: IsWord(s[i])
  }

  /** Operators are looked up in the environment under their own spelling. */
  const OPERATORS: set<string> :=
    {"+", "-", "*", "/", "%", "===", "!==", "<", "<=", ">", ">=", "!"}

  predicate IsOperator(s: string) {
    s in OPERATORS
  }

  /** The expressions the grammar can build: no statement occurs outside a function body. */
  predicate IsExpr(n: Node)
    decreases n, 0
  {
    match n
    case Lit(_) => true
    case EmptyListExpr => true
    case Name(_) => true
    case CondExpr(p, c, a) => IsExpr(p) && IsExpr(c) && IsExpr(a)
    case BoolOp(_, l, r) => IsExpr(l) && IsExpr(r)
    case FunDef(ps, b) => (forall i | 0 <= i < |ps| :: IsIdentifier(ps[i])) && IsStmt(b)
    case Application(f, args) => IsExpr(f) && forall i | 0 <= i < |args| :: IsExpr(args[i])
    case Unsupported(_) => true
    case _ => false
  }

  /** The statements the grammar can build; every declared or assigned name is an identifier. */
  predicate IsStmt(n: Node)
    decreases n, 1
  {
    match n
    case ConstDecl(x, e) => IsIdentifier(x) && IsExpr(e)
    case VarDecl(x, e) => IsIdentifier(x) && IsExpr(e)
    case Assignment(x, e) => IsIdentifier(x) && IsExpr(e)
    case CondStmt(p, c, a) => IsExpr(p) && IsStmt(c) && IsStmt(a)
    case Sequence(ss) => forall i | 0 <= i < |ss| :: IsStmt(ss[i])
    case Return(e) => IsExpr(e)
    case Block(b) => IsStmt(b)
    case While(p, b) => IsExpr(p) && IsStmt(b)
    case For(i, p, f, b) =>
      IsStmt(i) && IsExpr(p) && IsStmt(f) &&
      (i.VarDecl? || i.Assignment? || i.Unsupported?) && (f.Assignment? || f.Unsupported?) &&
      forall k | 0 <= k < |b| :: IsStmt(b[k])
    case _ => IsExpr(n)
  }

  /** The block, while loop and extended body that a for loop is rewritten to. */
  function ForBlock(init: Node, pred: Node, fin: Node, body: seq<Node>): Node {
    Block(Sequence([init, While(pred, Block(Sequence(body + [fin])))]))
  }

  lemma ForBlockIsStmt(init: Node, pred: Node, fin: Node, body: seq<Node>)
    requires IsStmt(For(init, pred, fin, body))
    ensures IsStmt(ForBlock(init, pred, fin, body))
  {
    assert IsStmt(Sequence(body + [fin]));
    assert IsStmt(While(pred, Block(Sequence(body + [fin]))));
    assert IsStmt(Sequence([init, While(pred, Block(Sequence(body + [fin])))]));
  }

  lemma OperatorsAreNotIdentifiers()
    ensures forall op | IsOperator(op) :: !IsIdentifier(op)
  {
  }
}

/** What the text of an operator expression means, all the way from characters to values: operators are
    ordinary names looked up on every use, and yet an expression has the value its operators should give.
 */
module Denotation {
  import opened Options
  import opened Syntax
  import opened Environment
  import opened Evaluator
  import opened Confinement
  import opened Grammar
  import opened Precedence
  import opened Spellings
  import Rendering
  import T = Trees
  import opened Semantics
  import opened Calls
  import ForLoop
  import Texts

  type Result = Evaluator.Result<Environment.Value>

  // ----- Expressions -----

  datatype Expr =
    | Number(text: string)
    | Truth(value: bool)
    | Variable(name: string)
    | Prefix(op: nat, operand: Expr)
    | Binary(op: nat, left: Expr, right: Expr)
    | Conditional(test: Expr, yes: Expr, no: Expr)

  predicate WellFormed(e: Expr) {
    match e
    case Prefix(op, a) => (op == PLUS || op == MINUS || op == NOT) && WellFormed(a)
    case Binary(op, a, b) => IsBinary(op) && WellFormed(a) && WellFormed(b)
    case Conditional(a, b, c) => WellFormed(a) && WellFormed(b) && WellFormed(c)
    case _ => true
  }

  function Spelling(k: nat): string {
    if k == PLUS then "+" else if k == MINUS then "-" else if k == 36 then "*" else if k == 37 then "/"
    else if k == 38 then "%" else if k == NOT then "!" else if k == AND then "&&" else if k == OR then "||"
    else if k == 42 then "===" else if k == 43 then "!==" else if k == 44 then ">" else if k == 45 then "<"
    else if k == 46 then ">=" else if k == 47 then "<=" else ""
  }

  /** The node the evaluator gets.  A sign is an operator applied to zero and the operand. */
  function NodeFor(number: string -> Syntax.Number, e: Expr): Node {
    match e
    case Number(text) => Lit(Num(number(text)))
    case Truth(b) => Lit(Bool(b))
    case Variable(x) => Name(x)
    case Prefix(op, a) =>
      Application(Name(Spelling(op)),
                  if op == NOT then [NodeFor(number, a)] else [Lit(Num(Finite(0.0))), NodeFor(number, a)])
    case Binary(op, a, b) =>
      if op == AND || op == OR then BoolOp(Spelling(op), NodeFor(number, a), NodeFor(number, b))
      else Application(Name(Spelling(op)), [NodeFor(number, a), NodeFor(number, b)])
    case Conditional(a, b, c) => CondExpr(NodeFor(number, a), NodeFor(number, b), NodeFor(number, c))
  }

  function NodesFor(number: string -> Syntax.Number, es: seq<Expr>): seq<Node> {
    if es == [] then [] else [NodeFor(number, es[0])] + NodesFor(number, es[1..])
  }

  /** Expressions whose names and numbers can be written down. */
  predicate Readable(e: Expr) {
    match e
    case Number(text) => IsNumeral(text)
    case Truth(_) => true
    case Variable(x) => IsName(x)
    case Prefix(_, a) => Readable(a)
    case Binary(_, a, b) => Readable(a) && Readable(b)
    case Conditional(a, b, c) => Readable(a) && Readable(b) && Readable(c)
  }

  // ----- The meaning of an expression -----

  /** An operator on values, with nothing looked up. */
  function Operate(h: Host, op: nat, v: Environment.Value, w: Environment.Value): Environment.Value {
    if op == 42 then P(Bool(StrictEquals(v, w)))
    else if op == 43 then P(Bool(!StrictEquals(v, w)))
    else P(h.arith(Spelling(op), ViewOf(v), ViewOf(w)))
  }

  function Sign(h: Host, op: nat, v: Environment.Value): Environment.Value {
    if op == NOT then P(Bool(!Truthy(v))) else P(h.arith(Spelling(op), VPrim(Num(Finite(0.0))), ViewOf(v)))
  }

  /** Its value, or the error of the first name that is not bound.  Only the operands that decide are
      looked at, and only `true` itself decides. */
  function Denote(h: Host, number: string -> Syntax.Number, e: Expr, env: Env, st: State): Result {
    match e
    case Number(text) => Ok(P(Num(number(text))), st)
    case Truth(b) => Ok(P(Bool(b)), st)
    case Variable(x) => EvalName(x, env, st)
    case Prefix(op, a) =>
      var (v, _) :- Denote(h, number, a, env, st);
      Ok(Sign(h, op, v), st)
    case Binary(op, a, b) =>
      var (v, _) :- Denote(h, number, a, env, st);
      if op == AND then if v == True then Denote(h, number, b, env, st) else Ok(False, st)
      else if op == OR then if v == True then Ok(True, st) else Denote(h, number, b, env, st)
      else
        var (w, _) :- Denote(h, number, b, env, st);
        Ok(Operate(h, op, v, w), st)
    case Conditional(a, b, c) =>
      var (v, _) :- Denote(h, number, a, env, st);
      if v == True then Denote(h, number, b, env, st) else Denote(h, number, c, env, st)
  }

  /** A program's value is its last statement's, if none before it fails; an empty one fails. */
  function DenoteAll(h: Host, number: string -> Syntax.Number, es: seq<Expr>, env: Env, st: State): Result {
    if es == [] then Fail(NotAPair, st)
    else if |es| == 1 then Denote(h, number, es[0], env, st)
    else
      var (_, _) :- Denote(h, number, es[0], env, st);
      DenoteAll(h, number, es[1..], env, st)
  }

  // ----- How deep evaluation goes -----

  function Max(a: nat, b: nat): nat {
    if a < b then b else a
  }

  function Depth(e: Expr): nat {
    match e
    case Prefix(_, a) => 4 + Depth(a)
    case Binary(_, a, b) => 4 + Max(Depth(a), Depth(b))
    case Conditional(a, b, c) => 4 + Max(Depth(a), Max(Depth(b), Depth(c)))
    case _ => 1
  }

  function DepthAll(es: seq<Expr>): nat {
    if es == [] then 1 else 1 + Max(Depth(es[0]), DepthAll(es[1..]))
  }

  // ----- Evaluation gives the meaning -----

  /** Applying a builtin under its own name to two operands. */
  lemma CallsBuiltin(h: Host, op: string, a: Node, b: Node, env: Env, st: State, k: nat, r: Result, q: Result)
    requires k >= 5 && Lookup(st.frames, env, op) == Some(Builtin(op))
    requires r == Eval(h, a, env, st, k - 2) && r.st == st && q == Eval(h, b, env, st, k - 3) && q.st == st
    ensures Eval(h, Application(Name(op), [a, b]), env, st, k) ==
            if r.Fail? then r else if q.Fail? then q else ApplyBuiltin(h, op, [r.value, q.value], st)
  {
    hide Eval, ListOfValues, Lookup, ApplyBuiltin;
    var es := [a, b];
    TwoOperands(h, a, b, env, st, k - 1, r, q);
    ApplicationYields(h, op, es, env, st, k);
  }

  /** Applying a builtin to operands: the operator first, then they. */
  lemma ApplicationYields(h: Host, op: string, es: seq<Node>, env: Env, st: State, k: nat)
    requires k >= 2 && Lookup(st.frames, env, op) == Some(Builtin(op))
    ensures var vs := ListOfValues(h, es, env, st, k - 1);
            Eval(h, Application(Name(op), es), env, st, k) ==
              if vs.Fail? then Fail(vs.error, vs.st) else ApplyBuiltin(h, op, vs.value, vs.st)
  {
    hide ListOfValues, Lookup, ApplyBuiltin;
    NameYields(h, op, env, st, k - 1);
    assert Eval(h, Name(op), env, st, k - 1) == Ok(Builtin(op), st);
    var vs := ListOfValues(h, es, env, st, k - 1);
    assert vs.Ok? ==> Apply(h, Builtin(op), vs.value, vs.st, k - 1) == ApplyBuiltin(h, op, vs.value, vs.st);
    assert EvalApplication(h, Name(op), es, env, st, k) ==
           if vs.Fail? then Fail(vs.error, vs.st) else ApplyBuiltin(h, op, vs.value, vs.st);
    assert Eval(h, Application(Name(op), es), env, st, k) == EvalApplication(h, Name(op), es, env, st, k);
  }

  lemma CallsBuiltinOnOne(h: Host, op: string, a: Node, env: Env, st: State, k: nat, r: Result)
    requires k >= 5 && Lookup(st.frames, env, op) == Some(Builtin(op))
    requires r == Eval(h, a, env, st, k - 2) && r.st == st
    ensures Eval(h, Application(Name(op), [a]), env, st, k) ==
            if r.Fail? then r else ApplyBuiltin(h, op, [r.value], st)
  {
    hide Eval, ListOfValues, Lookup, ApplyBuiltin;
    var es := [a];
    OneOperand(h, a, env, st, k - 1, r);
    ApplicationYields(h, op, es, env, st, k);
  }

  lemma NameYields(h: Host, x: string, env: Env, st: State, k: nat)
    requires k > 0
    ensures Eval(h, Name(x), env, st, k) == EvalName(x, env, st)
  {
  }

  lemma OneOperand(h: Host, a: Node, env: Env, st: State, k: nat, r: Result)
    requires k >= 2 && r == Eval(h, a, env, st, k - 1)
    ensures ListOfValues(h, [a], env, st, k) == if r.Fail? then Fail(r.error, r.st) else Ok([r.value], r.st)
  {
    hide Eval;
    assert [a][1..] == [];
    if r.Ok? {
      assert ListOfValues(h, [], env, r.st, k - 1) == Ok([], r.st);
      assert [r.value] + [] == [r.value];
    }
  }

  lemma TwoOperands(h: Host, a: Node, b: Node, env: Env, st: State, k: nat, r: Result, q: Result)
    requires k >= 3 && r == Eval(h, a, env, st, k - 1) && r.st == st && q == Eval(h, b, env, st, k - 2) && q.st == st
    ensures ListOfValues(h, [a, b], env, st, k) ==
            if r.Fail? then Fail(r.error, st) else if q.Fail? then Fail(q.error, st) else Ok([r.value, q.value], st)
  {
    hide Eval;
    assert [a, b][1..] == [b];
    OneOperand(h, b, env, st, k - 1, q);
    if r.Ok? && q.Ok? { assert [r.value] + [q.value] == [r.value, q.value]; }
  }

  lemma OperatorIsBuiltin(op: nat, env: Env, st: State)
    requires Ready(env, st) && ((IsBinary(op) && op != AND && op != OR) || op == NOT)
    ensures Lookup(st.frames, env, Spelling(op)) == Some(Builtin(Spelling(op)))
  {
    assert IsOperator(Spelling(op));
    OperatorsResolve(st.frames, env, Spelling(op));
  }

  lemma BuiltinOperates(h: Host, op: nat, v: Environment.Value, w: Environment.Value, st: State)
    requires IsBinary(op) && op != AND && op != OR
    ensures ApplyBuiltin(h, Spelling(op), [v, w], st) == Ok(Operate(h, op, v, w), st)
  {
  }

  lemma BuiltinSigns(h: Host, op: nat, v: Environment.Value, st: State)
    requires op == PLUS || op == MINUS || op == NOT
    ensures ApplyBuiltin(h, Spelling(op), if op == NOT then [v] else [P(Num(Finite(0.0))), v], st) ==
        Ok(Sign(h, op, v), st)
  {
  }

  lemma {:induction false} EvalDenotes(h: Host, number: string -> Syntax.Number, e: Expr, env: Env, st: State, k: nat)
    requires WellFormed(e) && Ready(env, st) && k >= Depth(e)
    ensures Eval(h, NodeFor(number, e), env, st, k) == Denote(h, number, e, env, st)
    ensures Denote(h, number, e, env, st).st == st
    decreases e, 1
  {
    hide GoodStore, ApplyBuiltin, Spelling, Eval;
    match e
    case Number(text) => LiteralYields(h, Num(number(text)), env, st, k);
    case Truth(b) => LiteralYields(h, Bool(b), env, st, k);
    case Variable(x) => NameYields(h, x, env, st, k);
    case Prefix(op, a) => PrefixDenotes(h, number, e, env, st, k);
    case Binary(op, a, b) => BinaryDenotes(h, number, e, env, st, k);
    case Conditional(a, b, c) => ConditionalDenotes(h, number, e, env, st, k);
  }

  lemma {:induction false} ConditionalDenotes(h: Host, number: string -> Syntax.Number, e: Expr, env: Env, st: State,
                                              k: nat)
    requires e.Conditional? && WellFormed(e) && Ready(env, st) && k >= Depth(e)
    ensures Eval(h, NodeFor(number, e), env, st, k) == Denote(h, number, e, env, st)
    ensures Denote(h, number, e, env, st).st == st
    decreases e, 0
  {
    hide GoodStore, Eval, Spelling;
    EvalDenotes(h, number, e.test, env, st, k - 1);
    EvalDenotes(h, number, e.yes, env, st, k - 1);
    EvalDenotes(h, number, e.no, env, st, k - 1);
    ConditionalYields(h, NodeFor(number, e.test), NodeFor(number, e.yes), NodeFor(number, e.no), env, st, k);
  }

  lemma ConditionalYields(h: Host, p: Node, c: Node, a: Node, env: Env, st: State, k: nat)
    requires k > 0
    ensures Eval(h, CondExpr(p, c, a), env, st, k) == EvalConditional(h, p, c, a, env, st, k)
  {
    hide EvalConditional;
  }

  lemma {:induction false} PrefixDenotes(h: Host, number: string -> Syntax.Number, e: Expr, env: Env, st: State, k: nat)
    requires e.Prefix? && WellFormed(e) && Ready(env, st) && k >= Depth(e)
    ensures Eval(h, NodeFor(number, e), env, st, k) == Denote(h, number, e, env, st)
    ensures Denote(h, number, e, env, st).st == st
    decreases e, 0
  {
    hide GoodStore, ApplyBuiltin, Spelling, Eval;
    var op, r := e.op, Denote(h, number, e.operand, env, st);
    OperatorIsBuiltin(op, env, st);
    if op == NOT {
      EvalDenotes(h, number, e.operand, env, st, k - 2);
      CallsBuiltinOnOne(h, Spelling(op), NodeFor(number, e.operand), env, st, k, r);
    } else {
      EvalDenotes(h, number, e.operand, env, st, k - 3);
      LiteralYields(h, Num(Finite(0.0)), env, st, k - 2);
      CallsBuiltin(h, Spelling(op), Lit(Num(Finite(0.0))), NodeFor(number, e.operand), env, st, k,
                   Ok(P(Num(Finite(0.0))), st), r);
    }
    if r.Ok? { BuiltinSigns(h, op, r.value, st); }
  }

  lemma LiteralYields(h: Host, p: Prim, env: Env, st: State, k: nat)
    requires k > 0
    ensures Eval(h, Lit(p), env, st, k) == Ok(P(p), st)
  {
  }

  lemma {:induction false} BinaryDenotes(h: Host, number: string -> Syntax.Number, e: Expr, env: Env, st: State, k: nat)
    requires e.Binary? && WellFormed(e) && Ready(env, st) && k >= Depth(e)
    ensures Eval(h, NodeFor(number, e), env, st, k) == Denote(h, number, e, env, st)
    ensures Denote(h, number, e, env, st).st == st
    decreases e, 0
  {
    hide GoodStore, ApplyBuiltin, Operate, Eval;
    var op, a, b := e.op, NodeFor(number, e.left), NodeFor(number, e.right);
    var r, q := Denote(h, number, e.left, env, st), Denote(h, number, e.right, env, st);
    if op == AND || op == OR {
      EvalDenotes(h, number, e.left, env, st, k - 1);
      EvalDenotes(h, number, e.right, env, st, k - 1);
      ConnectiveYields(h, Spelling(op), a, b, env, st, k);
    } else {
      EvalDenotes(h, number, e.left, env, st, k - 2);
      EvalDenotes(h, number, e.right, env, st, k - 3);
      hide Spelling;
      OperatorIsBuiltin(op, env, st);
      CallsBuiltin(h, Spelling(op), a, b, env, st, k, r, q);
      if r.Ok? && q.Ok? { BuiltinOperates(h, op, r.value, q.value, st); }
    }
  }

  lemma ConnectiveYields(h: Host, op: string, a: Node, b: Node, env: Env, st: State, k: nat)
    requires k > 0
    ensures Eval(h, BoolOp(op, a, b), env, st, k) == EvalBoolean(h, op, a, b, env, st, k)
  {
    hide EvalBoolean;
  }

  lemma {:induction false} NodeIsExpr(number: string -> Syntax.Number, e: Expr)
    ensures IsExpr(NodeFor(number, e))
  {
    match e
    case Prefix(_, a) => NodeIsExpr(number, a);
    case Binary(_, a, b) => NodeIsExpr(number, a); NodeIsExpr(number, b);
    case Conditional(a, b, c) => NodeIsExpr(number, a); NodeIsExpr(number, b); NodeIsExpr(number, c);
    case _ =>
  }

  /** An expression's value is no return, not even a name's. */
  lemma DenotesNoReturn(h: Host, number: string -> Syntax.Number, e: Expr, env: Env, st: State)
    requires WellFormed(e) && Ready(env, st)
    ensures var r := Denote(h, number, e, env, st); r.st == st && (r.Ok? ==> !r.value.ReturnValue?)
  {
    hide GoodStore, Eval, Denote, IsExpr, IsStmt;
    NodeIsExpr(number, e);
    EvalDenotes(h, number, e, env, st, Depth(e));
    EvalIsGood(h, NodeFor(number, e), env, st, Depth(e));
  }

  lemma {:induction false} SequenceDenotes(h: Host, number: string -> Syntax.Number, es: seq<Expr>, env: Env, st: State,
                                           k: nat)
    requires Ready(env, st) && k >= DepthAll(es) && forall j | 0 <= j < |es| :: WellFormed(es[j])
    ensures EvalSequence(h, NodesFor(number, es), env, st, k) == DenoteAll(h, number, es, env, st)
  {
    hide GoodStore, Eval, Denote, WellFormed;
    if es != [] {
      EvalDenotes(h, number, es[0], env, st, k - 1);
      DenotesNoReturn(h, number, es[0], env, st);
      var ns := NodesFor(number, es);
      assert ns[0] == NodeFor(number, es[0]) && ns[1..] == NodesFor(number, es[1..]);
      if |es| > 1 { SequenceDenotes(h, number, es[1..], env, st, k - 1); } else { assert ns == [ns[0]]; }
    }
  }

  // ----- From text to value -----

  lemma OperatorIsInfixName(op: nat)
    requires IsBinary(op) && op != AND && op != OR
    ensures T.IsInfixName(Spelling(op))
  {
  }

  lemma {:induction false} NodeIsTree(number: string -> Syntax.Number, e: Expr)
    requires WellFormed(e) && Readable(e)
    ensures T.IsExprTree(number, NodeFor(number, e))
  {
    hide IsName, IsNumeral, T.IsInfixName;
    match e
    case Number(text) => assert T.HasNumeral(number, number(text));
    case Prefix(op, a) => NodeIsTree(number, a);
    case Binary(op, a, b) =>
      NodeIsTree(number, a);
      NodeIsTree(number, b);
      if op != AND && op != OR { OperatorIsInfixName(op); }
    case Conditional(a, b, c) =>
      NodeIsTree(number, a);
      NodeIsTree(number, b);
      NodeIsTree(number, c);
    case _ =>
  }

  predicate AllReadable(es: seq<Expr>) {
    forall j | 0 <= j < |es| :: WellFormed(es[j]) && Readable(es[j])
  }

  lemma {:induction false} NodesAreTrees(number: string -> Syntax.Number, es: seq<Expr>)
    requires AllReadable(es)
    ensures |NodesFor(number, es)| == |es| && T.AreExprTrees(number, NodesFor(number, es))
    ensures T.IsProgramTree(number, Sequence(NodesFor(number, es)))
  {
    hide WellFormed, Readable, T.IsExprTree, T.IsStmtTree;
    if es != [] {
      NodeIsTree(number, es[0]);
      T.ExprIsStmt(number, NodeFor(number, es[0]));
      NodesAreTrees(number, es[1..]);
    }
  }

  /** What stands in front of the first word and behind each one. */
  datatype Spacing = Spacing(lead: string, gaps: seq<string>)

  /** Blanks and comments, enough of them to keep the words of a program apart. */
  ghost predicate Spaces(number: string -> Syntax.Number, n: Node, sp: Spacing) {
    && T.IsProgramTree(number, n) && IsFiller(sp.lead) && |sp.gaps| == |Texts.Written(number, n).lexemes|
    && Rendering.AreApart(Texts.Written(number, n).lexemes, sp.gaps)
  }

  ghost function ProgramText(number: string -> Syntax.Number, n: Node, sp: Spacing): string
    requires Spaces(number, n, sp)
  {
    sp.lead + Rendering.Rendered(Texts.Written(number, n).lexemes, sp.gaps)
  }

  lemma TextIsRead(number: string -> Syntax.Number, n: Node, sp: Spacing)
    requires Spaces(number, n, sp)
    ensures Texts.Program(number, ProgramText(number, n, sp)) == Some(n)
  {
    hide Texts.Written, T.IsProgramTree, Rendering.AreApart, Rendering.Rendered, IsFiller, Texts.Program;
    Texts.TreeIsWritten(number, n, sp.lead, sp.gaps);
  }

  /** The text of expressions, scanned, parsed and evaluated as a program on any good store, has the
      meaning of its last expression, and leaves the store alone. */
  lemma TextDenotes(h: Host, number: string -> Syntax.Number, es: seq<Expr>, sp: Spacing, st: State, k: nat)
    requires Spaces(number, Sequence(NodesFor(number, es)), sp) && AllReadable(es)
    requires GoodStore(st.frames) && k > DepthAll(es)
    ensures var p := Texts.Program(number, ProgramText(number, Sequence(NodesFor(number, es)), sp));
            p.Some? && EvalToplevel(h, p.value, st, k) == DenoteAll(h, number, es, GLOBAL, st)
  {
    hide GoodStore, Readable, Spaces, Eval, EvalSequence, Texts.Program, DenoteAll, NodesFor, Ready, WellFormed;
    TextIsRead(number, Sequence(NodesFor(number, es)), sp);
    SequenceYields(h, NodesFor(number, es), GLOBAL, st, k);
    GlobalIsReady(st);
    SequenceDenotes(h, number, es, GLOBAL, st, k - 1);
    AllDenoteNoReturn(h, number, es, GLOBAL, st);
  }

  lemma GlobalIsReady(st: State)
    requires GoodStore(st.frames)
    ensures Ready(GLOBAL, st)
  {
  }

  lemma SequenceYields(h: Host, ss: seq<Node>, env: Env, st: State, k: nat)
    requires k > 0
    ensures Eval(h, Sequence(ss), env, st, k) == EvalSequence(h, ss, env, st, k - 1)
  {
    hide EvalSequence;
  }

  lemma {:induction false} AllDenoteNoReturn(h: Host, number: string -> Syntax.Number, es: seq<Expr>, env: Env,
                                             st: State)
    requires Ready(env, st) && forall j | 0 <= j < |es| :: WellFormed(es[j])
    ensures var r := DenoteAll(h, number, es, env, st); r.st == st && (r.Ok? ==> !r.value.ReturnValue?)
  {
    hide GoodStore, Denote, WellFormed;
    if es != [] {
      DenotesNoReturn(h, number, es[0], env, st);
      if |es| > 1 { AllDenoteNoReturn(h, number, es[1..], env, st); }
    }
  }

  /** After any texts in the whole language, whatever they did and whether they failed, the text of an expression
      still means what it says: its names have the values they have by then, its operators do what they always
      did. */
  lemma TextAfterTexts(h: Host, pi: Syntax.Number, number: string -> Syntax.Number, texts: seq<(string, nat)>,
                       es: seq<Expr>, sp: Spacing, k: nat)
    requires Spaces(number, Sequence(NodesFor(number, es)), sp) && AllReadable(es) && k > DepthAll(es)
    ensures var st := Texts.After(h, pi, number, texts);
            var p := Texts.Program(number, ProgramText(number, Sequence(NodesFor(number, es)), sp));
            p.Some? && EvalToplevel(h, p.value, st, k) == DenoteAll(h, number, es, GLOBAL, st)
  {
    hide IsStmt, Session, GoodStore, Readable, Spaces, WellFormed, Texts.Program, NodesFor, DenoteAll;
    AfterTextsIsGood(h, pi, number, texts);
    TextDenotes(h, number, es, sp, Texts.After(h, pi, number, texts), k);
  }

  lemma AfterTextsIsGood(h: Host, pi: Syntax.Number, number: string -> Syntax.Number, texts: seq<(string, nat)>)
    ensures GoodStore(Texts.After(h, pi, number, texts).frames)
  {
    hide IsStmt, Session, GoodStore, Texts.Programs;
    Texts.ProgramsAreStatements(number, texts);
    InitialStateIsGood(pi);
    SessionIsGood(h, Texts.Programs(number, texts), InitialState(pi));
  }

  /** A program answers `r`, given fuel enough. */
  ghost predicate Yields(h: Host, p: Node, st: State, r: Result) {
    exists k: nat :: EvalToplevel(h, p, st, k) == r && Answers(r)
  }

  /** Outside of functions a return is an error; otherwise a program answers what its evaluation gives. */
  lemma YieldsIff(h: Host, p: Node, st: State, r: Result)
    ensures Yields(h, p, st, r) <==>
            if r.Ok? then !r.value.ReturnValue? && Gives(h, p, GLOBAL, st, r)
            else Gives(h, p, GLOBAL, st, r) ||
                 (r.error == ReturnOutside && exists v :: Gives(h, p, GLOBAL, st, Ok(ReturnValue(v), r.st)))
  {
    hide Eval;
    forall q | Gives(h, p, GLOBAL, st, q) ensures Yields(h, p, st, AtToplevel(q)) {
      var k := GivenAt(h, p, GLOBAL, st, q);
      assert EvalToplevel(h, p, st, k) == AtToplevel(q);
    }
    if Yields(h, p, st, r) {
      var k: nat :| EvalToplevel(h, p, st, k) == r && Answers(r);
      var q := Eval(h, p, GLOBAL, st, k);
      assert r == AtToplevel(q);
      IsGiven(h, p, GLOBAL, st, q, k);
      if q.Ok? && q.value.ReturnValue? { assert q == Ok(ReturnValue(q.value.content), r.st); }
    }
    if r.Fail? && r.error == ReturnOutside {
      forall v | Gives(h, p, GLOBAL, st, Ok(ReturnValue(v), r.st)) ensures Yields(h, p, st, r) {
        assert AtToplevel(Ok(ReturnValue(v), r.st)) == r;
      }
    }
  }

  function AtToplevel(r: Result): Result {
    if r.Ok? && r.value.ReturnValue? then Fail(ReturnOutside, r.st) else r
  }

  /** Whatever a text is read as, it answers what the rules prove of that, after any texts; only a return outside of
      functions is an error instead. */
  lemma TextMeans(h: Host, pi: Syntax.Number, number: string -> Syntax.Number, texts: seq<(string, nat)>, text: string,
                  r: Result)
    requires Texts.Program(number, text).Some?
    ensures var st, p := Texts.After(h, pi, number, texts), Texts.Program(number, text).value;
            Yields(h, p, st, r) <==>
            if r.Ok? then !r.value.ReturnValue? && Holds(h, Evaluates(p, GLOBAL, st, r))
            else Holds(h, Evaluates(p, GLOBAL, st, r)) ||
                 (r.error == ReturnOutside && exists v :: Holds(h, Evaluates(p, GLOBAL, st, Ok(ReturnValue(v), r.st))))
  {
    hide Eval, Texts.Program, Texts.Programs, Session, Holds, Yields, EvalToplevel, Gives;
    var st, p := Texts.After(h, pi, number, texts), Texts.Program(number, text).value;
    YieldsIff(h, p, st, r);
    EvalIff(h, p, GLOBAL, st, r);
    forall v ensures Gives(h, p, GLOBAL, st, Ok(ReturnValue(v), r.st)) <==>
                     Holds(h, Evaluates(p, GLOBAL, st, Ok(ReturnValue(v), r.st)))
    {
      EvalIff(h, p, GLOBAL, st, Ok(ReturnValue(v), r.st));
    }
  }

  // ----- A function declared and called -----

  /** `function f(ps) { return e; }` and `f(es);` */
  function Declaring(f: string, ps: seq<string>, e: Node): Node {
    ConstDecl(f, FunDef(ps, Sequence([Return(e)])))
  }

  function Calling(f: string, ps: seq<string>, e: Node, es: seq<Node>): Node {
    Sequence([Declaring(f, ps, e), Application(Name(f), es)])
  }

  function FunctionValue(ps: seq<string>, e: Node, st: State): Environment.Value {
    Closure(st.next, ps, Sequence([Return(e)]), GLOBAL)
  }

  /** The store with the function declared. */
  function Defined(f: string, ps: seq<string>, e: Node, st: State): State
    requires st.frames != []
  {
    Bound(st.(next := st.next + 1), 0, f, FunctionValue(ps, e, st), false)
  }

  lemma DeclaringGives(h: Host, f: string, ps: seq<string>, e: Node, st: State, k: nat)
    requires st.frames != [] && k > 1
    ensures Eval(h, Declaring(f, ps, e), GLOBAL, st, k) == Ok(Undefined, Defined(f, ps, e, st))
    ensures Eval(h, Name(f), GLOBAL, Defined(f, ps, e, st), k) ==
            Ok(FunctionValue(ps, e, st), Defined(f, ps, e, st))
  {
    var d := FunDef(ps, Sequence([Return(e)]));
    assert Eval(h, d, GLOBAL, st, k - 1) == Ok(FunctionValue(ps, e, st), st.(next := st.next + 1));
    assert GLOBAL[0] == 0;
    NameYields(h, f, GLOBAL, Defined(f, ps, e, st), k);
  }

  lemma BodyGives(h: Host, e: Node, env: Env, st: State, k: nat)
    ensures var r := Eval(h, e, env, st, k);
            Eval(h, Sequence([Return(e)]), env, st, k + 3) == if r.Fail? then r else Ok(ReturnValue(r.value), r.st)
  {
    var ss := [Return(e)];
    assert Eval(h, Sequence(ss), env, st, k + 3) == EvalSequence(h, ss, env, st, k + 2);
    assert EvalSequence(h, ss, env, st, k + 2) == Eval(h, Return(e), env, st, k + 1);
  }

  lemma CallingUnfolds(h: Host, f: string, ps: seq<string>, e: Node, es: seq<Node>, st: State, k: nat)
    requires st.frames != [] && k > 4
    ensures Eval(h, Calling(f, ps, e, es), GLOBAL, st, k) ==
            Eval(h, Application(Name(f), es), GLOBAL, Defined(f, ps, e, st), k - 3)
  {
    hide Eval, Defined;
    var ss := [Declaring(f, ps, e), Application(Name(f), es)];
    SequenceYields(h, ss, GLOBAL, st, k);
    DeclaringGives(h, f, ps, e, st, k - 2);
    assert ss[1..] == [Application(Name(f), es)];
  }

  /** From some fuel on, the program answers what the body's expression does. */
  lemma CallingIs(h: Host, f: string, ps: seq<string>, e: Node, es: seq<Node>, st: State, vs: seq<Environment.Value>,
                  st2: State, frame: Frame) returns (m: nat)
    requires st.frames != [] && GiveAll(h, es, GLOBAL, Defined(f, ps, e, st), vs, st2) && IsFrameOf(frame, ps, vs)
    ensures forall k: nat | k >= m ::
              Eval(h, Calling(f, ps, e, es), GLOBAL, st, k + 8) ==
              Eval(h, e, Inner(st2, GLOBAL), Within(st2, frame), k)
  {
    hide Eval, GiveAll, IsFrameOf, Gives, Defined, Calling;
    var c, st1 := FunctionValue(ps, e, st), Defined(f, ps, e, st);
    DeclaringGives(h, f, ps, e, st, 2);
    IsGiven(h, Name(f), GLOBAL, st1, Ok(c, st1), 2);
    m := CallIs(h, Name(f), es, GLOBAL, st1, c, st1, vs, st2, frame);
    forall k: nat | k >= m
      ensures Eval(h, Calling(f, ps, e, es), GLOBAL, st, k + 8) ==
              Eval(h, e, Inner(st2, GLOBAL), Within(st2, frame), k)
    {
      CallingUnfolds(h, f, ps, e, es, st, k + 8);
      BodyGives(h, e, Inner(st2, GLOBAL), Within(st2, frame), k);
      assert Eval(h, Application(Name(f), es), GLOBAL, st1, (k + 3) + 2) ==
             Returned(Eval(h, c.body, Inner(st2, GLOBAL), Within(st2, frame), k + 3));
    }
  }

  lemma CallingIsStatement(number: string -> Syntax.Number, f: string, ps: seq<string>, e: Node, es: seq<Node>)
    requires T.IsProgramTree(number, Calling(f, ps, e, es))
    ensures IsStmt(Declaring(f, ps, e)) && IsExpr(Application(Name(f), es))
  {
    hide T.IsStmtTree;
    var ss := Calling(f, ps, e, es).stmts;
    T.StmtTreeIsStmt(number, ss[0]);
    T.StmtTreeIsStmt(number, ss[1]);
  }

  /** What the program answers is no return value. */
  lemma CallingReturnsNothing(h: Host, f: string, ps: seq<string>, e: Node, es: seq<Node>, st: State, k: nat)
    requires GoodStore(st.frames) && IsStmt(Declaring(f, ps, e)) && IsExpr(Application(Name(f), es)) && k > 4
    ensures var r := Eval(h, Calling(f, ps, e, es), GLOBAL, st, k); r.Ok? ==> !r.value.ReturnValue?
  {
    hide Eval, GoodStore, IsStmt, IsExpr, Defined, Calling;
    GlobalIsReady(st);
    StoreIsThere(st);
    DeclaringGives(h, f, ps, e, st, 2);
    EvalIsGood(h, Declaring(f, ps, e), GLOBAL, st, 2);
    GlobalIsReady(Defined(f, ps, e, st));
    EvalIsGood(h, Application(Name(f), es), GLOBAL, Defined(f, ps, e, st), k - 3);
    CallingUnfolds(h, f, ps, e, es, st, k);
  }

  lemma StoreIsThere(st: State)
    requires GoodStore(st.frames)
    ensures st.frames != []
  {
  }

  /** In any spacing and after any texts, declaring a function and calling it answers what the body's expression does
      in one new frame, with each parameter bound to its argument, and answers nothing else. */
  lemma CallingMeans(h: Host, pi: Syntax.Number, number: string -> Syntax.Number, texts: seq<(string, nat)>, f: string,
                     ps: seq<string>, e: Node, es: seq<Node>, sp: Spacing, vs: seq<Environment.Value>, st2: State,
                     frame: Frame, r: Result)
    requires Spaces(number, Calling(f, ps, e, es), sp) && IsFrameOf(frame, ps, vs)
    requires var st := Texts.After(h, pi, number, texts);
             st.frames != [] && GiveAll(h, es, GLOBAL, Defined(f, ps, e, st), vs, st2)
    ensures var st := Texts.After(h, pi, number, texts);
            var p := Texts.Program(number, ProgramText(number, Calling(f, ps, e, es), sp));
            p.Some? && (Yields(h, p.value, st, r) <==> Gives(h, e, Inner(st2, GLOBAL), Within(st2, frame), r))
  {
    hide Eval, GiveAll, IsFrameOf, Gives, Defined, Calling, Texts.Program, Texts.After, GoodStore, IsStmt, IsExpr,
         Yields, Texts.Written, T.IsProgramTree, Rendering.AreApart, Rendering.Rendered, IsFiller, ProgramText;
    var st, n := Texts.After(h, pi, number, texts), Calling(f, ps, e, es);
    TextIsRead(number, n, sp);
    AfterTextsIsGood(h, pi, number, texts);
    CallingIsStatement(number, f, ps, e, es);
    CallingYields(h, f, ps, e, es, st, vs, st2, frame, r);
  }

  lemma CallingYields(h: Host, f: string, ps: seq<string>, e: Node, es: seq<Node>, st: State,
                      vs: seq<Environment.Value>, st2: State, frame: Frame, r: Result)
    requires GoodStore(st.frames) && IsStmt(Declaring(f, ps, e)) && IsExpr(Application(Name(f), es))
    requires st.frames != [] && GiveAll(h, es, GLOBAL, Defined(f, ps, e, st), vs, st2) && IsFrameOf(frame, ps, vs)
    ensures Yields(h, Calling(f, ps, e, es), st, r) <==> Gives(h, e, Inner(st2, GLOBAL), Within(st2, frame), r)
  {
    hide Eval, GiveAll, IsFrameOf, Gives, Defined, Calling, GoodStore, IsStmt, IsExpr;
    var n, env', st' := Calling(f, ps, e, es), Inner(st2, GLOBAL), Within(st2, frame);
    var m := CallingIs(h, f, ps, e, es, st, vs, st2, frame);
    if Yields(h, n, st, r) {
      var k: nat :| EvalToplevel(h, n, st, k) == r && Answers(r);
      ForLoop.EvalIsMonotone(h, n, GLOBAL, st, k, k + m + 8);
      CallingReturnsNothing(h, f, ps, e, es, st, k + m + 8);
      IsGiven(h, e, env', st', r, k + m);
    }
    if Gives(h, e, env', st', r) {
      var k := GivenAt(h, e, env', st', r);
      ForLoop.EvalIsMonotone(h, e, env', st', k, k + m);
      CallingReturnsNothing(h, f, ps, e, es, st, k + m + 8);
      assert EvalToplevel(h, n, st, k + m + 8) == r;
    }
  }

  // ----- And with operators -----

  function DenoteEach(h: Host, number: string -> Syntax.Number, es: seq<Expr>, env: Env, st: State):
    Evaluator.Result<seq<Environment.Value>>
  {
    if es == [] then Ok([], st)
    else
      var (v, _) :- Denote(h, number, es[0], env, st);
      var (vs, _) :- DenoteEach(h, number, es[1..], env, st);
      Ok([v] + vs, st)
  }

  lemma {:induction false} OperandsGive(h: Host, number: string -> Syntax.Number, es: seq<Expr>, env: Env, st: State)
    requires Ready(env, st) && (forall j | 0 <= j < |es| :: WellFormed(es[j]))
    requires DenoteEach(h, number, es, env, st).Ok?
    ensures GiveAll(h, NodesFor(number, es), env, st, DenoteEach(h, number, es, env, st).value, st)
  {
    hide GoodStore, Eval, Denote, WellFormed, Gives;
    if es != [] {
      EvalDenotes(h, number, es[0], env, st, Depth(es[0]));
      IsGiven(h, NodeFor(number, es[0]), env, st, Denote(h, number, es[0], env, st), Depth(es[0]));
      OperandsGive(h, number, es[1..], env, st);
      var ns, vs := NodesFor(number, es), DenoteEach(h, number, es, env, st).value;
      assert ns[0] == NodeFor(number, es[0]) && ns[1..] == NodesFor(number, es[1..]);
      assert vs[1..] == DenoteEach(h, number, es[1..], env, st).value;
      assert Gives(h, ns[0], env, st, Ok(vs[0], st));
    }
  }

  lemma {:induction false} DenoteAnswers(h: Host, number: string -> Syntax.Number, e: Expr, env: Env, st: State)
    ensures Answers(Denote(h, number, e, env, st))
  {
    match e
    case Prefix(_, a) => DenoteAnswers(h, number, a, env, st);
    case Binary(_, a, b) =>
      DenoteAnswers(h, number, a, env, st);
      DenoteAnswers(h, number, b, env, st);
    case Conditional(a, b, c) =>
      DenoteAnswers(h, number, a, env, st);
      DenoteAnswers(h, number, b, env, st);
      DenoteAnswers(h, number, c, env, st);
    case _ =>
  }

  /** An expression gives its meaning and nothing else. */
  lemma GivesDenoted(h: Host, number: string -> Syntax.Number, e: Expr, env: Env, st: State, r: Result)
    requires WellFormed(e) && Ready(env, st)
    ensures Gives(h, NodeFor(number, e), env, st, r) <==> r == Denote(h, number, e, env, st)
  {
    hide GoodStore, Eval, Denote, WellFormed, Gives;
    EvalDenotes(h, number, e, env, st, Depth(e));
    DenoteAnswers(h, number, e, env, st);
    IsGiven(h, NodeFor(number, e), env, st, Denote(h, number, e, env, st), Depth(e));
    if Gives(h, NodeFor(number, e), env, st, r) {
      GivesOne(h, NodeFor(number, e), env, st, r, Denote(h, number, e, env, st));
    }
  }

  lemma {:induction false} OperandsAreGood(h: Host, number: string -> Syntax.Number, es: seq<Expr>, env: Env, st: State)
    requires Ready(env, st) && (forall j | 0 <= j < |es| :: WellFormed(es[j]))
    requires DenoteEach(h, number, es, env, st).Ok?
    ensures GoodValues(DenoteEach(h, number, es, env, st).value, |st.frames|)
  {
    hide GoodStore, Eval, Denote, WellFormed, IsExpr, IsStmt, GoodValue;
    if es != [] {
      EvalDenotes(h, number, es[0], env, st, Depth(es[0]));
      NodeIsExpr(number, es[0]);
      EvalIsGood(h, NodeFor(number, es[0]), env, st, Depth(es[0]));
      OperandsAreGood(h, number, es[1..], env, st);
    }
  }

  lemma CalledIsReady(st: State, ps: seq<string>, vs: seq<Environment.Value>, frame: Frame)
    requires GoodStore(st.frames) && IsFrameOf(frame, ps, vs) && GoodValues(vs, |st.frames|)
    requires forall i | 0 <= i < |ps| :: IsIdentifier(ps[i])
    ensures Ready(Inner(st, GLOBAL), Within(st, frame))
  {
    hide GoodStore, GoodValue, IsIdentifier;
    FrameIs(frame, ps, vs);
    GlobalIsReady(st);
    ExtendIsGood(frame, GLOBAL, st);
  }

  /** Declaring a function of operator expressions and calling it with others: the value is the meaning of the
      function's expression where each parameter means what its argument does. */
  lemma CallingDenotes(h: Host, pi: Syntax.Number, number: string -> Syntax.Number, texts: seq<(string, nat)>,
                       f: string, ps: seq<string>, e: Expr, es: seq<Expr>, sp: Spacing, frame: Frame, r: Result)
    requires Spaces(number, Calling(f, ps, NodeFor(number, e), NodesFor(number, es)), sp)
    requires AllReadable([e] + es) && Texts.After(h, pi, number, texts).frames != []
    requires var st := Defined(f, ps, NodeFor(number, e), Texts.After(h, pi, number, texts));
             var vs := DenoteEach(h, number, es, GLOBAL, st);
             vs.Ok? && IsFrameOf(frame, ps, vs.value)
    ensures var st := Texts.After(h, pi, number, texts);
            var st1 := Defined(f, ps, NodeFor(number, e), st);
            var n := Calling(f, ps, NodeFor(number, e), NodesFor(number, es));
            var p := Texts.Program(number, ProgramText(number, n, sp));
            p.Some? &&
            (Yields(h, p.value, st, r) <==> r == Denote(h, number, e, Inner(st1, GLOBAL), Within(st1, frame)))
  {
    hide Eval, GiveAll, IsFrameOf, Gives, Defined, Calling, Texts.Program, Texts.After, GoodStore, IsStmt, IsExpr,
         Yields, Spaces, ProgramText, Denote, DenoteEach, WellFormed, Readable, NodesFor, NodeFor, IsIdentifier,
         GoodValue;
    var st, m, ns := Texts.After(h, pi, number, texts), NodeFor(number, e), NodesFor(number, es);
    var st1 := Defined(f, ps, m, st);
    var vs := DenoteEach(h, number, es, GLOBAL, st1).value;
    AfterTextsIsGood(h, pi, number, texts);
    SpacedIsTree(number, Calling(f, ps, m, ns), sp);
    CallingIsStatement(number, f, ps, m, ns);
    DefinedIsGood(h, f, ps, m, st);
    FunctionHasNames(f, ps, m);
    assert forall j | 0 <= j < |es| :: es[j] == ([e] + es)[j + 1];
    assert e == ([e] + es)[0];
    OperandsGive(h, number, es, GLOBAL, st1);
    OperandsAreGood(h, number, es, GLOBAL, st1);
    CalledIsReady(st1, ps, vs, frame);
    CallingMeans(h, pi, number, texts, f, ps, m, ns, sp, vs, st1, frame, r);
    GivesDenoted(h, number, e, Inner(st1, GLOBAL), Within(st1, frame), r);
  }

  lemma SpacedIsTree(number: string -> Syntax.Number, n: Node, sp: Spacing)
    requires Spaces(number, n, sp)
    ensures T.IsProgramTree(number, n)
  {
    hide Texts.Written, T.IsProgramTree, Rendering.AreApart, IsFiller;
  }

  lemma DefinedIsGood(h: Host, f: string, ps: seq<string>, e: Node, st: State)
    requires GoodStore(st.frames) && st.frames != [] && IsStmt(Declaring(f, ps, e))
    ensures Ready(GLOBAL, Defined(f, ps, e, st))
  {
    hide Eval, GoodStore, IsStmt, IsExpr, Defined;
    GlobalIsReady(st);
    DeclaringGives(h, f, ps, e, st, 2);
    EvalIsGood(h, Declaring(f, ps, e), GLOBAL, st, 2);
    GlobalIsReady(Defined(f, ps, e, st));
  }

  lemma FunctionHasNames(f: string, ps: seq<string>, e: Node)
    requires IsStmt(Declaring(f, ps, e))
    ensures forall i | 0 <= i < |ps| :: IsIdentifier(ps[i])
  {
    hide IsIdentifier;
    assert IsExpr(FunDef(ps, Sequence([Return(e)])));
  }
}

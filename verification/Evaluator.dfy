/** The meta-circular evaluator: a big-step function on a store of frames.

    `fuel` bounds the depth of nested calls, so that running out of it is the host's stack
    overflow; every theorem that needs an answer holds for all sufficiently large fuels.
 */
module Evaluator {
  import opened Options
  import opened Syntax
  import opened Environment

  datatype Error =
    | UnboundName(name: string)
    | TooManyArguments
    | TooFewArguments
    | NotAPair            // head or tail of something else; also the empty statement sequence
    | UnknownFunction
    | UnknownExpression
    | UserError
    | ReturnOutside
    | OutOfFuel

  /** A thrown error leaves the store as it was when it was thrown. */
  datatype Result<+T> = Ok(value: T, st: State) | Fail(error: Error, st: State) {
    predicate IsFailure() { Fail? }
    function PropagateFailure<U>(): Result<U> requires Fail? { Fail(error, st) }
    function Extract(): (T, State) requires Ok? { (value, st) }
  }

  /** What host operators can see of a value: list structure and primitives, nothing of closures. */
  datatype View = VUndefined | VPrim(p: Prim) | VNil | VPair(head: View, tail: View) | VObject

  /** The host's arithmetic and ordering operators, with their coercions and rounding. */
  datatype Host = Host(arith: (string, View, View) -> Prim)

  function ViewOf(v: Value): View {
    match v
    case Undefined => VUndefined
    case P(p) => VPrim(p)
    case Nil(_) => VNil
    case Pair(_, h, t) => VPair(ViewOf(h), ViewOf(t))
    case _ => VObject
  }

  predicate Truthy(v: Value) {
    match v
    case Undefined => false
    case P(Bool(b)) => b
    case P(Str(s)) => s != ""
    case P(Num(n)) => n != Finite(0.0) && n != NotANumber
    case _ => true
  }

  const True := P(Bool(true))
  const False := P(Bool(false))

  /** Strict equality: primitives by value (NaN is unequal to itself), objects by identity. */
  predicate StrictEquals(v: Value, w: Value) {
    match (v, w)
    case (Undefined, Undefined) => true
    case (P(p), P(q)) => p == q && p != Num(NotANumber)
    case (Nil(i), Nil(j)) => i == j
    case (Pair(i, _, _), Pair(j, _, _)) => i == j
    case (Closure(i, _, _, _), Closure(j, _, _, _)) => i == j
    case (Builtin(x), Builtin(y)) => x == y
    case _ => false
  }

  /** A new list of fresh cells holding `vs`. */
  function MakeList(vs: seq<Value>, next: nat): (r: (Value, nat)) {
    if vs == [] then (Nil(next), next + 1)
    else
      var (rest, n) := MakeList(vs[1..], next);
      (Pair(n, vs[0], rest), n + 1)
  }

  function Arg(args: seq<Value>, i: nat): Value {
    if i < |args| then args[i] else Undefined
  }

  /** Missing arguments read as undefined and surplus ones are ignored, as in the host. */
  function ApplyBuiltin(h: Host, f: string, args: seq<Value>, st: State): Result<Value> {
    if f == "pair" then Ok(Pair(st.next, Arg(args, 0), Arg(args, 1)), st.(next := st.next + 1))
    else if f == "head" then
      if Arg(args, 0).Pair? then Ok(Arg(args, 0).head, st) else Fail(NotAPair, st)
    else if f == "tail" then
      if Arg(args, 0).Pair? then Ok(Arg(args, 0).tail, st) else Fail(NotAPair, st)
    else if f == "list" then
      var (l, n) := MakeList(args, st.next);
      Ok(l, st.(next := n))
    else if f == "is_empty_list" then Ok(P(Bool(Arg(args, 0).Nil?)), st)
    else if f == "display" then Ok(Undefined, st)
    else if f == "error" then Fail(UserError, st)
    else if f == "===" then Ok(P(Bool(StrictEquals(Arg(args, 0), Arg(args, 1)))), st)
    else if f == "!==" then Ok(P(Bool(!StrictEquals(Arg(args, 0), Arg(args, 1)))), st)
    else if f == "!" then Ok(P(Bool(!Truthy(Arg(args, 0)))), st)
    else Ok(P(h.arith(f, ViewOf(Arg(args, 0)), ViewOf(Arg(args, 1)))), st)
  }

  /** Encloses `env` by a new frame. */
  function Extend(f: Frame, env: Env, st: State): (Env, State) {
    ([|st.frames|] + env, st.(frames := st.frames + [f]))
  }

  function Eval(h: Host, n: Node, env: Env, st: State, fuel: nat): Result<Value>
    decreases fuel, 1
  {
    if fuel == 0 then Fail(OutOfFuel, st)
    else
      match n
      case Lit(p) => Ok(P(p), st)
      case EmptyListExpr => Ok(Nil(st.next), st.(next := st.next + 1))
      case Name(x) => EvalName(x, env, st)
      case ConstDecl(x, e) => EvalDeclaration(h, x, e, false, env, st, fuel)
      case VarDecl(x, e) => EvalDeclaration(h, x, e, true, env, st, fuel)
      case CondStmt(p, c, a) => EvalConditional(h, p, c, a, env, st, fuel)
      case CondExpr(p, c, a) => EvalConditional(h, p, c, a, env, st, fuel)
      case BoolOp(op, l, r) => EvalBoolean(h, op, l, r, env, st, fuel)
      case FunDef(ps, b) => Ok(Closure(st.next, ps, b, env), st.(next := st.next + 1))
      case Sequence(ss) => EvalSequence(h, ss, env, st, fuel - 1)
      case Application(f, es) => EvalApplication(h, f, es, env, st, fuel)
      case Return(e) =>
        var (v, st1) :- Eval(h, e, env, st, fuel - 1);
        Ok(ReturnValue(v), st1)
      case Block(b) =>
        var (env1, st1) := Extend(map[], env, st);
        Eval(h, b, env1, st1, fuel - 1)
      case Assignment(x, e) => EvalAssignment(h, x, e, env, st, fuel)
      case While(p, b) => EvalWhile(h, p, b, env, st, fuel - 1)
      case For(i, p, f, b) => Eval(h, ForBlock(i, p, f, b), env, st, fuel - 1)
      case Unsupported(_) => Fail(UnknownExpression, st)
  }

  function EvalName(x: string, env: Env, st: State): Result<Value> {
    match Lookup(st.frames, env, x)
    case Some(v) => Ok(v, st)
    case None => Fail(UnboundName(x), st)
  }

  function EvalDeclaration(h: Host, x: string, e: Node, mutable: bool, env: Env, st: State, fuel: nat): Result<Value>
    requires fuel > 0
    decreases fuel, 0
  {
    var (v, st1) :- Eval(h, e, env, st, fuel - 1);
    if env == [] then Fail(NotAPair, st1)
    else Ok(Undefined, st1.(frames := Declare(st1.frames, env[0], x, v, mutable)))
  }

  /** Only `true` itself selects the consequent. */
  function EvalConditional(h: Host, p: Node, c: Node, a: Node, env: Env, st: State, fuel: nat): Result<Value>
    requires fuel > 0
    decreases fuel, 0
  {
    var (v, st1) :- Eval(h, p, env, st, fuel - 1);
    if v == True then Eval(h, c, env, st1, fuel - 1) else Eval(h, a, env, st1, fuel - 1)
  }

  function EvalBoolean(h: Host, op: string, l: Node, r: Node, env: Env, st: State, fuel: nat): Result<Value>
    requires fuel > 0
    decreases fuel, 0
  {
    var (v, st1) :- Eval(h, l, env, st, fuel - 1);
    if op == "&&" then
      if v == True then Eval(h, r, env, st1, fuel - 1) else Ok(False, st1)
    else
      if v == True then Ok(True, st1) else Eval(h, r, env, st1, fuel - 1)
  }

  function EvalApplication(h: Host, f: Node, es: seq<Node>, env: Env, st: State, fuel: nat): Result<Value>
    requires fuel > 0
    decreases fuel, 0
  {
    var (fv, st1) :- Eval(h, f, env, st, fuel - 1);
    var (vs, st2) :- ListOfValues(h, es, env, st1, fuel - 1);
    Apply(h, fv, vs, st2, fuel - 1)
  }

  function EvalAssignment(h: Host, x: string, e: Node, env: Env, st: State, fuel: nat): Result<Value>
    requires fuel > 0
    decreases fuel, 0
  {
    var (v, st1) :- Eval(h, e, env, st, fuel - 1);
    match Assign(st1.frames, env, x, v)
    case Some(frames) => Ok(v, st1.(frames := frames))
    case None => Fail(UnboundName(x), st1)
  }

  function EvalSequence(h: Host, ss: seq<Node>, env: Env, st: State, fuel: nat): Result<Value>
    decreases fuel
  {
    if fuel == 0 then Fail(OutOfFuel, st)
    else if ss == [] then Fail(NotAPair, st)
    else if |ss| == 1 then Eval(h, ss[0], env, st, fuel - 1)
    else
      var (v, st1) :- Eval(h, ss[0], env, st, fuel - 1);
      if v.ReturnValue? then Ok(v, st1) else EvalSequence(h, ss[1..], env, st1, fuel - 1)
  }

  function ListOfValues(h: Host, es: seq<Node>, env: Env, st: State, fuel: nat): Result<seq<Value>>
    decreases fuel
  {
    if fuel == 0 then Fail(OutOfFuel, st)
    else if es == [] then Ok([], st)
    else
      var (v, st1) :- Eval(h, es[0], env, st, fuel - 1);
      var (vs, st2) :- ListOfValues(h, es[1..], env, st1, fuel - 1);
      Ok([v] + vs, st2)
  }

  function Apply(h: Host, f: Value, args: seq<Value>, st: State, fuel: nat): Result<Value>
    decreases fuel
  {
    if fuel == 0 then Fail(OutOfFuel, st)
    else
      match f
      case Builtin(name) => ApplyBuiltin(h, name, args, st)
      case Closure(_, ps, body, env) =>
        if |ps| < |args| then Fail(TooManyArguments, st)
        else if |ps| > |args| then Fail(TooFewArguments, st)
        else
          var (env1, st1) := Extend(MakeFrame(ps, args), env, st);
          var (v, st2) :- Eval(h, body, env1, st1, fuel - 1);
          Ok(if v.ReturnValue? then v.content else Undefined, st2)
      case _ => Fail(UnknownFunction, st)
  }

  /** Tests truthiness, drops whatever the body yields, and always yields true. */
  function EvalWhile(h: Host, p: Node, b: Node, env: Env, st: State, fuel: nat): Result<Value>
    decreases fuel
  {
    if fuel == 0 then Fail(OutOfFuel, st)
    else
      var (v, st1) :- Eval(h, p, env, st, fuel - 1);
      if !Truthy(v) then Ok(True, st1)
      else
        var (_, st2) :- Eval(h, b, env, st1, fuel - 1);
        EvalWhile(h, p, b, env, st2, fuel - 1)
  }

  // ----- Programs -----

  const GLOBAL: Env := [0]

  const BUILTIN_NAMES: set<string> :=
    {"pair", "head", "tail", "list", "is_empty_list", "display", "error"} + OPERATORS

  /** The state setup_global_environment leaves: one frame of constants. */
  function InitialState(pi: Number): State {
    State([(map x | x in BUILTIN_NAMES :: Denoted(Builtin(x), false))
           ["undefined" := Denoted(Undefined, false)]
           ["math_PI" := Denoted(P(Num(pi)), false)]], 0)
  }

  function EvalToplevel(h: Host, program: Node, st: State, fuel: nat): Result<Value> {
    var (v, st1) :- Eval(h, program, GLOBAL, st, fuel);
    if v.ReturnValue? then Fail(ReturnOutside, st1) else Ok(v, st1)
  }

  /** A session: programs run one after another, each with its own fuel and on whatever store the
      last one left, also when that one threw. */
  function Session(h: Host, programs: seq<(Node, nat)>, st: State): State {
    if programs == [] then st
    else Session(h, programs[1..], EvalToplevel(h, programs[0].0, st, programs[0].1).st)
  }
}

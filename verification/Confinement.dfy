/** What evaluating any program the grammar can build keeps: the store only grows, return values
    stay out of it, and operator names stay bound to the original builtins.
 */
module Confinement {
  import opened Options
  import opened Syntax
  import opened Environment
  import opened Evaluator

  /** A value expressions may have: no return value anywhere inside it, and every closure has a
      grammatical body and a chain of existing frames that ends in the global one. */
  ghost predicate GoodValue(v: Value, n: nat) {
    match v
    case Pair(_, h, t) => GoodValue(h, n) && GoodValue(t, n)
    case Closure(_, ps, b, env) =>
      IsStmt(b) && GoodEnv(env, n) && forall i | 0 <= i < |ps| :: IsIdentifier(ps[i])
    case ReturnValue(_) => false
    case _ => true
  }

  ghost predicate GoodEnv(env: Env, n: nat) {
    env != [] && env[|env| - 1] == 0 && forall i | 0 <= i < |env| :: env[i] < n
  }

  ghost predicate GoodFrame(f: Frame, n: nat) {
    forall x | x in f :: GoodValue(f[x].value, n)
  }

  /** The global frame binds every operator to its builtin; the others bind identifiers only. */
  ghost predicate OperatorsIntact(frames: seq<Frame>) {
    && |frames| > 0
    && (forall op | IsOperator(op) :: op in frames[0] && frames[0][op].value == Builtin(op))
    && (forall a, x | 1 <= a < |frames| && x in frames[a] :: IsIdentifier(x))
  }

  ghost predicate GoodStore(frames: seq<Frame>) {
    OperatorsIntact(frames) && forall a | 0 <= a < |frames| :: GoodFrame(frames[a], |frames|)
  }

  ghost predicate GoodValues(vs: seq<Value>, n: nat) {
    forall i | 0 <= i < |vs| :: GoodValue(vs[i], n)
  }

  /** A statement may also yield one return value, around a good value. */
  ghost predicate GoodOutcome(v: Value, n: nat, isExpr: bool) {
    GoodValue(v, n) || (!isExpr && v.ReturnValue? && GoodValue(v.content, n))
  }

  ghost predicate Step(frames: seq<Frame>, frames': seq<Frame>) {
    GoodStore(frames') && |frames| <= |frames'| && Extends(frames, frames')
  }

  lemma StepReflexive(f: seq<Frame>)
    requires GoodStore(f)
    ensures Step(f, f)
  {
  }

  lemma StepTransitive(f: seq<Frame>, g: seq<Frame>, k: seq<Frame>)
    requires Step(f, g) && Step(g, k)
    ensures Step(f, k)
  {
  }

  // ----- The store operations keep good states good -----

  lemma {:induction false} GoodValueGrows(v: Value, n: nat, n': nat)
    requires n <= n'
    ensures GoodValue(v, n) ==> GoodValue(v, n')
    decreases v
  {
    match v
    case Pair(_, h, t) => GoodValueGrows(h, n, n'); GoodValueGrows(t, n, n');
    case _ =>
  }

  lemma BindIsGood(frames: seq<Frame>, a: nat, x: string, d: Denoted)
    requires GoodStore(frames) && a < |frames| && GoodValue(d.value, |frames|) && IsIdentifier(x)
    ensures Step(frames, frames[a := frames[a][x := d]])
  {
    OperatorsAreNotIdentifiers();
    hide IsIdentifier, IsOperator, GoodValue;
    var after := frames[a := frames[a][x := d]];
    assert forall b | 0 <= b < |frames| && b != a :: after[b] == frames[b];
  }

  lemma ExtendIsGood(f: Frame, env: Env, st: State)
    requires Ready(env, st) && GoodFrame(f, |st.frames|)
    requires forall x | x in f :: IsIdentifier(x)
    ensures var (env', st') := Extend(f, env, st);
            Step(st.frames, st'.frames) && GoodEnv(env', |st'.frames|)
  {
    hide IsIdentifier, IsOperator;
    var st' := Extend(f, env, st).1;
    forall v: Value ensures GoodValue(v, |st.frames|) ==> GoodValue(v, |st'.frames|) {
      GoodValueGrows(v, |st.frames|, |st'.frames|);
    }
  }

  lemma NameIsGood(x: string, env: Env, st: State)
    requires GoodStore(st.frames)
    ensures EvalName(x, env, st).Ok? ==> GoodValue(EvalName(x, env, st).value, |st.frames|)
  {
  }

  lemma {:induction false} MakeListIsGood(vs: seq<Value>, next: nat, n: nat)
    requires GoodValues(vs, n)
    ensures GoodValue(MakeList(vs, next).0, n)
  {
    if vs != [] { MakeListIsGood(vs[1..], next, n); }
  }

  lemma BuiltinIsGood(h: Host, f: string, args: seq<Value>, st: State)
    requires GoodStore(st.frames) && GoodValues(args, |st.frames|)
    ensures var r := ApplyBuiltin(h, f, args, st);
            r.st.frames == st.frames && (r.Ok? ==> GoodValue(r.value, |st.frames|))
  {
    MakeListIsGood(args, st.next, |st.frames|);
    assert forall i: nat :: GoodValue(Arg(args, i), |st.frames|);
  }

  // ----- Evaluation -----

  ghost predicate Ready(env: Env, st: State) {
    GoodStore(st.frames) && GoodEnv(env, |st.frames|)
  }

  ghost predicate GoodResult(st: State, r: Result<Value>, isExpr: bool) {
    Step(st.frames, r.st.frames) && (r.Ok? ==> GoodOutcome(r.value, |r.st.frames|, isExpr))
  }

  /** The invariant of evaluation: an expression yields a good value, a statement at most a return
      value around one; the store stays good and keeps every binding. */
  lemma {:induction false} EvalIsGood(h: Host, n: Node, env: Env, st: State, k: nat)
    requires Ready(env, st) && (IsExpr(n) || IsStmt(n))
    ensures GoodResult(st, Eval(h, n, env, st, k), IsExpr(n))
    decreases k, 1
  {
    hide EvalSequence, ListOfValues, Apply, EvalWhile, EvalDeclaration, EvalConditional, EvalBoolean, EvalApplication,
         EvalAssignment, GoodStore, Extends, IsIdentifier;
    StepReflexive(st.frames);
    if k > 0 {
      match n
      case ConstDecl(x, e) => DeclarationIsGood(h, x, e, false, env, st, k);
      case VarDecl(x, e) => DeclarationIsGood(h, x, e, true, env, st, k);
      case CondStmt(p, c, a) => ConditionalIsGood(h, p, c, a, env, st, k, false);
      case Sequence(ss) => SequenceIsGood(h, ss, env, st, k - 1);
      case Assignment(x, e) => AssignmentIsGood(h, x, e, env, st, k);
      case While(p, b) => WhileIsGood(h, p, b, env, st, k - 1);
      case Return(_) => EnclosingIsGood(h, n, env, st, k);
      case Block(_) => EnclosingIsGood(h, n, env, st, k);
      case For(_, _, _, _) => EnclosingIsGood(h, n, env, st, k);
      case _ => ExpressionIsGood(h, n, env, st, k);
    }
  }

  /** The statements evaluated by evaluating one other node. */
  lemma {:induction false} EnclosingIsGood(h: Host, n: Node, env: Env, st: State, k: nat)
    requires k > 0 && Ready(env, st) && IsStmt(n) && (n.Return? || n.Block? || n.For?)
    ensures GoodResult(st, Eval(h, n, env, st, k), false)
    decreases k, 0
  {
    hide GoodStore, Extends, IsIdentifier, EvalSequence, ListOfValues, Apply, EvalWhile, EvalDeclaration,
         EvalConditional, EvalBoolean, EvalApplication, EvalAssignment;
    match n
    case Return(e) => EvalIsGood(h, e, env, st, k - 1);
    case Block(b) =>
      ExtendIsGood(map[], env, st);
      var (env1, st1) := Extend(map[], env, st);
      var _ := EvalAfter(h, b, env1, st, st1, k - 1);
    case For(i, p, f, b) =>
      ForBlockIsStmt(i, p, f, b);
      EvalIsGood(h, ForBlock(i, p, f, b), env, st, k - 1);
    case _ =>
  }

  lemma {:induction false} ExpressionIsGood(h: Host, n: Node, env: Env, st: State, k: nat)
    requires k > 0 && Ready(env, st) && IsExpr(n)
    ensures GoodResult(st, Eval(h, n, env, st, k), true)
    decreases k, 1, 0
  {
    hide EvalSequence, ListOfValues, Apply, EvalWhile, EvalDeclaration, EvalConditional, EvalBoolean, EvalApplication,
         EvalAssignment, GoodStore, Extends, IsIdentifier;
    StepReflexive(st.frames);
    match n
    case Lit(_) =>
    case EmptyListExpr =>
    case Name(x) => NameIsGood(x, env, st);
    case CondExpr(p, c, a) => ConditionalIsGood(h, p, c, a, env, st, k, true);
    case BoolOp(op, l, r) => BooleanIsGood(h, op, l, r, env, st, k);
    case FunDef(_, _) =>
    case Application(f, es) => ApplicationIsGood(h, f, es, env, st, k);
    case Unsupported(_) =>
  }

  /** The invariant for a step from `st1`, which was reached from `st`. */
  lemma {:induction false} EvalAfter(h: Host, n: Node, env: Env, st: State, st1: State, k: nat)
      returns (r: Result<Value>)
    requires Step(st.frames, st1.frames) && Ready(env, st1) && (IsExpr(n) || IsStmt(n))
    ensures r == Eval(h, n, env, st1, k) && GoodResult(st, r, IsExpr(n)) && Ready(env, r.st)
    decreases k, 2
  {
    hide Eval, GoodStore, Extends, IsIdentifier, IsStmt, IsExpr;
    EvalIsGood(h, n, env, st1, k);
    r := Eval(h, n, env, st1, k);
    StepTransitive(st.frames, st1.frames, r.st.frames);
  }

  lemma {:induction false} DeclarationIsGood(h: Host, x: string, e: Node, m: bool, env: Env, st: State, k: nat)
    requires k > 0 && Ready(env, st) && IsExpr(e) && IsIdentifier(x)
    ensures GoodResult(st, EvalDeclaration(h, x, e, m, env, st, k), false)
    decreases k, 0
  {
    hide Eval, IsExpr, IsStmt, GoodStore, Extends, IsIdentifier;
    StepReflexive(st.frames);
    var r := EvalAfter(h, e, env, st, st, k - 1);
    if r.Ok? {
      BindIsGood(r.st.frames, env[0], x, Denoted(r.value, m));
      StepTransitive(st.frames, r.st.frames, Declare(r.st.frames, env[0], x, r.value, m));
    }
  }

  lemma {:induction false} AssignmentIsGood(h: Host, x: string, e: Node, env: Env, st: State, k: nat)
    requires k > 0 && Ready(env, st) && IsExpr(e) && IsIdentifier(x)
    ensures GoodResult(st, EvalAssignment(h, x, e, env, st, k), false)
    decreases k, 0
  {
    hide Eval, IsExpr, IsStmt, GoodStore, Extends, IsIdentifier;
    StepReflexive(st.frames);
    var r := EvalAfter(h, e, env, st, st, k - 1);
    if r.Ok? && Resolve(r.st.frames, env, x).Some? {
      var a := Resolve(r.st.frames, env, x).value;
      BindIsGood(r.st.frames, a, x, Denoted(r.value, r.st.frames[a][x].mutable));
      StepTransitive(st.frames, r.st.frames, Assign(r.st.frames, env, x, r.value).value);
    }
  }

  lemma {:induction false} ConditionalIsGood(h: Host, p: Node, c: Node, a: Node, env: Env, st: State, k: nat,
                                             isExpr: bool)
    requires k > 0 && Ready(env, st) && IsExpr(p)
    requires if isExpr then IsExpr(c) && IsExpr(a) else IsStmt(c) && IsStmt(a)
    ensures GoodResult(st, EvalConditional(h, p, c, a, env, st, k), isExpr)
    decreases k, 0
  {
    hide Eval, IsExpr, IsStmt, GoodStore, Extends, IsIdentifier;
    StepReflexive(st.frames);
    var r := EvalAfter(h, p, env, st, st, k - 1);
    if r.Ok? {
      var _ := EvalAfter(h, if r.value == True then c else a, env, st, r.st, k - 1);
    }
  }

  lemma {:induction false} BooleanIsGood(h: Host, op: string, left: Node, right: Node, env: Env, st: State, k: nat)
    requires k > 0 && Ready(env, st) && IsExpr(left) && IsExpr(right)
    ensures GoodResult(st, EvalBoolean(h, op, left, right, env, st, k), true)
    decreases k, 0
  {
    hide Eval, IsExpr, IsStmt, GoodStore, Extends, IsIdentifier;
    StepReflexive(st.frames);
    var r := EvalAfter(h, left, env, st, st, k - 1);
    if r.Ok? { var _ := EvalAfter(h, right, env, st, r.st, k - 1); }
  }

  lemma {:induction false} ApplicationIsGood(h: Host, f: Node, es: seq<Node>, env: Env, st: State, k: nat)
    requires k > 0 && Ready(env, st) && IsExpr(f) && forall i | 0 <= i < |es| :: IsExpr(es[i])
    ensures GoodResult(st, EvalApplication(h, f, es, env, st, k), true)
    decreases k, 0
  {
    hide Eval, ListOfValues, Apply, IsExpr, IsStmt, GoodStore, Extends, IsIdentifier;
    StepReflexive(st.frames);
    var r1 := EvalAfter(h, f, env, st, st, k - 1);
    if r1.Ok? {
      ValuesAreGood(h, es, env, r1.st, k - 1);
      var r2 := ListOfValues(h, es, env, r1.st, k - 1);
      StepTransitive(st.frames, r1.st.frames, r2.st.frames);
      if r2.Ok? { CallIsGood(h, r1.value, r2.value, r1.st, st, r2.st, k - 1); }
    }
  }

  lemma {:induction false} CallIsGood(h: Host, f: Value, vs: seq<Value>, st1: State, st: State, st2: State, k: nat)
    requires GoodValue(f, |st1.frames|) && GoodValues(vs, |st2.frames|)
    requires Step(st1.frames, st2.frames) && Step(st.frames, st2.frames)
    ensures GoodResult(st, Apply(h, f, vs, st2, k), true)
    decreases k, 1
  {
    hide GoodStore, IsIdentifier, Apply;
    GoodValueGrows(f, |st1.frames|, |st2.frames|);
    ApplyIsGood(h, f, vs, st2, k);
    StepTransitive(st.frames, st2.frames, Apply(h, f, vs, st2, k).st.frames);
  }

  lemma {:induction false} SequenceIsGood(h: Host, ss: seq<Node>, env: Env, st: State, k: nat)
    requires Ready(env, st) && forall i | 0 <= i < |ss| :: IsStmt(ss[i])
    ensures GoodResult(st, EvalSequence(h, ss, env, st, k), false)
    decreases k, 0
  {
    hide Eval, IsExpr, IsStmt, GoodStore, Extends, IsIdentifier;
    StepReflexive(st.frames);
    if k > 0 && ss != [] {
      var r1 := EvalAfter(h, ss[0], env, st, st, k - 1);
      if r1.Ok? {
        SequenceIsGood(h, ss[1..], env, r1.st, k - 1);
        StepTransitive(st.frames, r1.st.frames, EvalSequence(h, ss[1..], env, r1.st, k - 1).st.frames);
      }
    }
  }

  lemma {:induction false} ValuesAreGood(h: Host, es: seq<Node>, env: Env, st: State, k: nat)
    requires Ready(env, st) && forall i | 0 <= i < |es| :: IsExpr(es[i])
    ensures var r := ListOfValues(h, es, env, st, k);
            Step(st.frames, r.st.frames) && (r.Ok? ==> GoodValues(r.value, |r.st.frames|) && |r.value| == |es|)
    decreases k, 0
  {
    hide Eval, GoodStore, Extends, IsIdentifier, IsStmt, IsExpr;
    StepReflexive(st.frames);
    if k > 0 && es != [] {
      var r1 := EvalAfter(h, es[0], env, st, st, k - 1);
      if r1.Ok? {
        ValuesAreGood(h, es[1..], env, r1.st, k - 1);
        var r2 := ListOfValues(h, es[1..], env, r1.st, k - 1);
        GoodValueGrows(r1.value, |r1.st.frames|, |r2.st.frames|);
        StepTransitive(st.frames, r1.st.frames, r2.st.frames);
      }
    }
  }

  /** A call never yields a return value: the body's one is unwrapped. */
  lemma {:induction false} ApplyIsGood(h: Host, f: Value, args: seq<Value>, st: State, k: nat)
    requires GoodStore(st.frames) && GoodValue(f, |st.frames|) && GoodValues(args, |st.frames|)
    ensures GoodResult(st, Apply(h, f, args, st, k), true)
    decreases k, 0
  {
    hide Eval, GoodStore, Extends, IsIdentifier;
    StepReflexive(st.frames);
    if k > 0 {
      match f
      case Builtin(name) => BuiltinIsGood(h, name, args, st);
      case Closure(_, ps, body, env) =>
        if |ps| == |args| {
          ExtendIsGood(MakeFrame(ps, args), env, st);
          var (env1, st1) := Extend(MakeFrame(ps, args), env, st);
          var _ := EvalAfter(h, body, env1, st, st1, k - 1);
        }
      case _ =>
    }
  }

  lemma {:induction false} WhileIsGood(h: Host, p: Node, b: Node, env: Env, st: State, k: nat)
    requires Ready(env, st) && IsExpr(p) && IsStmt(b)
    ensures GoodResult(st, EvalWhile(h, p, b, env, st, k), false)
    decreases k, 0
  {
    hide Eval, IsExpr, IsStmt, GoodStore, Extends, IsIdentifier, Truthy;
    StepReflexive(st.frames);
    if k > 0 {
      var r1 := EvalAfter(h, p, env, st, st, k - 1);
      if r1.Ok? && Truthy(r1.value) { LoopIsGood(h, p, b, env, st, r1.st, k - 1); }
    }
  }

  /** The rest of an iteration, after its test led from `st` to `st1`. */
  lemma {:induction false} LoopIsGood(h: Host, p: Node, b: Node, env: Env, st: State, st1: State, k: nat)
    requires Step(st.frames, st1.frames) && Ready(env, st1) && IsExpr(p) && IsStmt(b)
    ensures var r := Eval(h, b, env, st1, k);
            GoodResult(st, if r.Ok? then EvalWhile(h, p, b, env, r.st, k) else r, false)
    decreases k, 3
  {
    hide Eval, EvalWhile, IsExpr, IsStmt, GoodStore, Extends, IsIdentifier;
    var r := EvalAfter(h, b, env, st, st1, k);
    if r.Ok? {
      WhileIsGood(h, p, b, env, r.st, k);
      StepTransitive(st.frames, r.st.frames, EvalWhile(h, p, b, env, r.st, k).st.frames);
    }
  }

  // ----- Whole sessions -----

  lemma InitialStateIsGood(pi: Number)
    ensures GoodStore(InitialState(pi).frames)
  {
    hide IsIdentifier, IsExpr, IsStmt;
  }

  lemma {:induction false} SessionIsGood(h: Host, programs: seq<(Node, nat)>, st: State)
    requires GoodStore(st.frames) && forall i | 0 <= i < |programs| :: IsStmt(programs[i].0)
    ensures Step(st.frames, Session(h, programs, st).frames)
  {
    hide Eval, IsExpr, IsStmt;
    if programs != [] {
      EvalIsGood(h, programs[0].0, GLOBAL, st, programs[0].1);
      SessionIsGood(h, programs[1..], EvalToplevel(h, programs[0].0, st, programs[0].1).st);
    }
  }

  lemma {:induction false} OperatorsResolve(frames: seq<Frame>, env: Env, op: string)
    requires OperatorsIntact(frames) && GoodEnv(env, |frames|) && IsOperator(op)
    ensures Lookup(frames, env, op) == Some(Builtin(op))
  {
    OperatorsAreNotIdentifiers();
    if env[0] != 0 { OperatorsResolve(frames, env[1..], op); }
  }

  /** Whether a closure inside `v` has captured `env`. */
  ghost predicate Captures(v: Value, env: Env) {
    match v
    case Pair(_, h, t) => Captures(h, env) || Captures(t, env)
    case Closure(_, _, _, e) => e == env
    case ReturnValue(c) => Captures(c, env)
    case _ => false
  }

  /** The environments program text can still run in: the global one and every captured one. */
  ghost predicate Live(frames: seq<Frame>, env: Env) {
    env == GLOBAL || exists a, x :: 0 <= a < |frames| && x in frames[a] && Captures(frames[a][x].value, env)
  }

  lemma {:induction false} CapturedIsGood(v: Value, n: nat, env: Env)
    requires GoodValue(v, n) && Captures(v, env)
    ensures GoodEnv(env, n)
    decreases v
  {
    if v.Pair? {
      if Captures(v.head, env) { CapturedIsGood(v.head, n, env); } else { CapturedIsGood(v.tail, n, env); }
    }
  }

  /** Operator hygiene: after any session, an operator looked up from any live environment is still
      the builtin it was at the start. */
  lemma OperatorHygiene(h: Host, pi: Number, programs: seq<(Node, nat)>, env: Env, op: string)
    requires IsOperator(op) && forall i | 0 <= i < |programs| :: IsStmt(programs[i].0)
    requires Live(Session(h, programs, InitialState(pi)).frames, env)
    ensures Lookup(Session(h, programs, InitialState(pi)).frames, env, op) == Some(Builtin(op))
  {
    InitialStateIsGood(pi);
    SessionIsGood(h, programs, InitialState(pi));
    LiveOperators(Session(h, programs, InitialState(pi)).frames, env, op);
  }

  lemma LiveOperators(frames: seq<Frame>, env: Env, op: string)
    requires GoodStore(frames) && Live(frames, env) && IsOperator(op)
    ensures Lookup(frames, env, op) == Some(Builtin(op))
  {
    if env != GLOBAL {
      var a, x :| 0 <= a < |frames| && x in frames[a] && Captures(frames[a][x].value, env);
      CapturedIsGood(frames[a][x].value, |frames|, env);
    }
    OperatorsResolve(frames, env, op);
  }

  /** Return confinement: in a session's store nothing bound holds a return value, an expression
      evaluates to none, and neither does a call of any value found in the store. */
  lemma ReturnConfinement(h: Host, pi: Number, programs: seq<(Node, nat)>, e: Node, k: nat)
    requires IsExpr(e) && forall i | 0 <= i < |programs| :: IsStmt(programs[i].0)
    ensures var st := Session(h, programs, InitialState(pi));
            && (forall a, x | 0 <= a < |st.frames| && x in st.frames[a] :: HoldsNoReturn(st.frames[a][x].value))
            && var r := Eval(h, e, GLOBAL, st, k);
               r.Ok? ==>
                 HoldsNoReturn(r.value) &&
                 forall args, k' | GoodValues(args, |r.st.frames|) && Apply(h, r.value, args, r.st, k').Ok? ::
                   HoldsNoReturn(Apply(h, r.value, args, r.st, k').value)
  {
    InitialStateIsGood(pi);
    SessionIsGood(h, programs, InitialState(pi));
    var st := Session(h, programs, InitialState(pi));
    forall v: Value, n: nat | GoodValue(v, n) ensures HoldsNoReturn(v) { GoodHoldsNoReturn(v, n); }
    EvalIsGood(h, e, GLOBAL, st, k);
    var r := Eval(h, e, GLOBAL, st, k);
    if r.Ok? {
      forall args, k' | GoodValues(args, |r.st.frames|)
        ensures Apply(h, r.value, args, r.st, k').Ok? ==> HoldsNoReturn(Apply(h, r.value, args, r.st, k').value)
      {
        ApplyIsGood(h, r.value, args, r.st, k');
      }
    }
  }

  ghost predicate HoldsNoReturn(v: Value) {
    match v
    case ReturnValue(_) => false
    case Pair(_, h, t) => HoldsNoReturn(h) && HoldsNoReturn(t)
    case _ => true
  }

  lemma {:induction false} GoodHoldsNoReturn(v: Value, n: nat)
    requires GoodValue(v, n)
    ensures HoldsNoReturn(v)
    decreases v
  {
    if v.Pair? { GoodHoldsNoReturn(v.head, n); GoodHoldsNoReturn(v.tail, n); }
  }
}

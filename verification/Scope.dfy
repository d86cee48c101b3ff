/** Scope soundness: a program whose every name is declared before use never meets an unbound name. */
module Scope {
  import opened Options
  import opened Syntax
  import opened Environment
  import opened Evaluator
  import opened Confinement

  /** The names a statement adds to the frame it runs in. */
  function Declared(n: Node): set<string> {
    match n
    case ConstDecl(x, _) => {x}
    case VarDecl(x, _) => {x}
    case _ => {}
  }

  function DeclaredIn(ss: seq<Node>): set<string> {
    if ss == [] then {} else Declared(ss[0]) + DeclaredIn(ss[1..])
  }

  function Names(xs: seq<string>): set<string> {
    set x | x in xs
  }

  /** Every name is used under `bound` or after its declaration.  A declared function may use its
      own name; a loop's finaliser sees what the loop body declares, since it runs in that frame. */
  predicate Scoped(n: Node, bound: set<string>)
    decreases n, 0
  {
    match n
    case Lit(_) => true
    case EmptyListExpr => true
    case Unsupported(_) => true
    case Name(x) => x in bound
    case ConstDecl(x, e) => Scoped(e, if e.FunDef? then bound + {x} else bound)
    case VarDecl(x, e) => Scoped(e, if e.FunDef? then bound + {x} else bound)
    case CondStmt(p, c, a) => Scoped(p, bound) && Scoped(c, bound) && Scoped(a, bound)
    case CondExpr(p, c, a) => Scoped(p, bound) && Scoped(c, bound) && Scoped(a, bound)
    case BoolOp(_, l, r) => Scoped(l, bound) && Scoped(r, bound)
    case FunDef(ps, b) => Scoped(b, bound + Names(ps))
    case Sequence(ss) => ScopedInOrder(ss, bound)
    case Application(f, es) => Scoped(f, bound) && forall i | 0 <= i < |es| :: Scoped(es[i], bound)
    case Return(e) => Scoped(e, bound)
    case Block(b) => Scoped(b, bound)
    case Assignment(x, e) => x in bound && Scoped(e, bound)
    case While(p, b) => Scoped(p, bound) && Scoped(b, bound)
    case For(i, p, f, b) =>
      var inner := bound + Declared(i);
      Scoped(i, bound) && Scoped(p, inner) && ScopedInOrder(b, inner) && Scoped(f, inner + DeclaredIn(b))
  }

  predicate ScopedInOrder(ss: seq<Node>, bound: set<string>)
    decreases ss, 0
  {
    ss == [] || (Scoped(ss[0], bound) && ScopedInOrder(ss[1..], bound + Declared(ss[0])))
  }

  /** The names an environment binds. */
  function Visible(frames: seq<Frame>, env: Env): set<string> {
    if env == [] then {} else FrameAt(frames, env[0]).Keys + Visible(frames, env[1..])
  }

  lemma {:induction false} VisibleResolves(frames: seq<Frame>, env: Env, x: string)
    ensures x in Visible(frames, env) <==> Resolve(frames, env, x).Some?
  {
    if env != [] { VisibleResolves(frames, env[1..], x); }
  }

  /** Every closure in `v` is scoped by its parameters and what its environment binds by now. */
  ghost predicate ScopedValue(v: Value, frames: seq<Frame>) {
    match v
    case Pair(_, h, t) => ScopedValue(h, frames) && ScopedValue(t, frames)
    case Closure(_, ps, b, env) => Scoped(b, Visible(frames, env) + Names(ps))
    case ReturnValue(c) => ScopedValue(c, frames)
    case _ => true
  }

  ghost predicate ScopedStore(frames: seq<Frame>) {
    forall a, x | 0 <= a < |frames| && x in frames[a] :: ScopedValue(frames[a][x].value, frames)
  }

  // ----- Growth -----

  lemma {:induction false} ScopedGrows(n: Node, bound: set<string>, more: set<string>)
    requires Scoped(n, bound) && bound <= more
    ensures Scoped(n, more)
    decreases n, 0
  {
    match n
    case ConstDecl(x, e) =>
      ScopedGrows(e, if e.FunDef? then bound + {x} else bound, if e.FunDef? then more + {x} else more);
    case VarDecl(x, e) =>
      ScopedGrows(e, if e.FunDef? then bound + {x} else bound, if e.FunDef? then more + {x} else more);
    case CondStmt(p, c, a) => ScopedGrows(p, bound, more); ScopedGrows(c, bound, more); ScopedGrows(a, bound, more);
    case CondExpr(p, c, a) => ScopedGrows(p, bound, more); ScopedGrows(c, bound, more); ScopedGrows(a, bound, more);
    case BoolOp(_, l, r) => ScopedGrows(l, bound, more); ScopedGrows(r, bound, more);
    case FunDef(ps, b) => ScopedGrows(b, bound + Names(ps), more + Names(ps));
    case Sequence(ss) => ScopedInOrderGrows(ss, bound, more);
    case Application(f, es) =>
      ScopedGrows(f, bound, more);
      forall i | 0 <= i < |es| ensures Scoped(es[i], more) { ScopedGrows(es[i], bound, more); }
    case Return(e) => ScopedGrows(e, bound, more);
    case Block(b) => ScopedGrows(b, bound, more);
    case Assignment(_, e) => ScopedGrows(e, bound, more);
    case While(p, b) => ScopedGrows(p, bound, more); ScopedGrows(b, bound, more);
    case For(i, p, f, b) =>
      ScopedGrows(i, bound, more);
      ScopedGrows(p, bound + Declared(i), more + Declared(i));
      ScopedInOrderGrows(b, bound + Declared(i), more + Declared(i));
      ScopedGrows(f, bound + Declared(i) + DeclaredIn(b), more + Declared(i) + DeclaredIn(b));
    case _ =>
  }

  lemma {:induction false} ScopedInOrderGrows(ss: seq<Node>, bound: set<string>, more: set<string>)
    requires ScopedInOrder(ss, bound) && bound <= more
    ensures ScopedInOrder(ss, more)
    decreases ss, 0
  {
    if ss != [] {
      ScopedGrows(ss[0], bound, more);
      ScopedInOrderGrows(ss[1..], bound + Declared(ss[0]), more + Declared(ss[0]));
    }
  }

  lemma {:induction false} VisibleGrows(frames: seq<Frame>, frames': seq<Frame>, env: Env)
    requires Extends(frames, frames')
    ensures Visible(frames, env) <= Visible(frames', env)
  {
    if env != [] { VisibleGrows(frames, frames', env[1..]); }
  }

  lemma {:induction false} ScopedValueGrows(v: Value, frames: seq<Frame>, frames': seq<Frame>)
    requires ScopedValue(v, frames) && Extends(frames, frames')
    ensures ScopedValue(v, frames')
    decreases v
  {
    match v
    case Pair(_, h, t) => ScopedValueGrows(h, frames, frames'); ScopedValueGrows(t, frames, frames');
    case Closure(_, ps, b, env) =>
      VisibleGrows(frames, frames', env);
      ScopedGrows(b, Visible(frames, env) + Names(ps), Visible(frames', env) + Names(ps));
    case ReturnValue(c) => ScopedValueGrows(c, frames, frames');
    case _ =>
  }

  /** A store stays scoped when it grows and everything new in it is scoped. */
  lemma StoreGrows(frames: seq<Frame>, frames': seq<Frame>)
    requires ScopedStore(frames) && Extends(frames, frames')
    requires forall a, x | 0 <= a < |frames'| && x in frames'[a] ::
               (a < |frames| && x in frames[a] && frames[a][x].value == frames'[a][x].value) ||
               ScopedValue(frames'[a][x].value, frames')
    ensures ScopedStore(frames')
  {
    forall a, x | 0 <= a < |frames'| && x in frames'[a] ensures ScopedValue(frames'[a][x].value, frames') {
      if a < |frames| && x in frames[a] && frames[a][x].value == frames'[a][x].value {
        ScopedValueGrows(frames'[a][x].value, frames, frames');
      }
    }
  }

  lemma BindIsScoped(frames: seq<Frame>, a: nat, x: string, d: Denoted)
    requires ScopedStore(frames) && a < |frames|
    requires ScopedValue(d.value, frames[a := frames[a][x := d]])
    ensures ScopedStore(frames[a := frames[a][x := d]])
  {
    StoreGrows(frames, frames[a := frames[a][x := d]]);
  }

  lemma ExtendIsScoped(f: Frame, env: Env, st: State)
    requires ScopedStore(st.frames) && GoodEnv(env, |st.frames|)
    requires forall x | x in f :: ScopedValue(f[x].value, st.frames)
    ensures var (env', st') := Extend(f, env, st);
            ScopedStore(st'.frames) && Visible(st'.frames, env') == f.Keys + Visible(st.frames, env)
  {
    var (env', st') := Extend(f, env, st);
    forall x | x in f ensures ScopedValue(f[x].value, st'.frames) {
      ScopedValueGrows(f[x].value, st.frames, st'.frames);
    }
    StoreGrows(st.frames, st'.frames);
    SameFramesSameNames(st.frames, st'.frames, env);
    assert env'[1..] == env;
  }

  lemma {:induction false} SameFramesSameNames(frames: seq<Frame>, frames': seq<Frame>, env: Env)
    requires |frames| <= |frames'| && forall a | 0 <= a < |frames| :: frames'[a] == frames[a]
    requires forall i | 0 <= i < |env| :: env[i] < |frames|
    ensures Visible(frames', env) == Visible(frames, env)
  {
    if env != [] { SameFramesSameNames(frames, frames', env[1..]); }
  }

  // ----- Evaluation -----

  ghost predicate Sound(env: Env, st: State) {
    Ready(env, st) && ScopedStore(st.frames)
  }

  /** What is proved of every result: the store stays scoped, the value is, and a failure is not
      for want of a name. */
  ghost predicate ScopedResult(r: Result<Value>) {
    ScopedStore(r.st.frames) && if r.Ok? then ScopedValue(r.value, r.st.frames) else !r.error.UnboundName?
  }

  lemma {:induction false} EvalIsScoped(h: Host, n: Node, env: Env, st: State, k: nat)
    requires Sound(env, st) && (IsExpr(n) || IsStmt(n)) && Scoped(n, Visible(st.frames, env))
    ensures var r := Eval(h, n, env, st, k);
            ScopedResult(r) && (r.Ok? ==> Declared(n) <= Visible(r.st.frames, env))
    decreases k, 1
  {
    hide GoodStore, Extends, IsIdentifier, ScopedStore, EvalSequence, ListOfValues, Apply, EvalWhile, EvalDeclaration,
         EvalConditional, EvalBoolean, EvalApplication, EvalAssignment;
    if k > 0 {
      match n
      case ConstDecl(x, e) => DeclarationIsScoped(h, x, e, false, env, st, k);
      case VarDecl(x, e) => DeclarationIsScoped(h, x, e, true, env, st, k);
      case CondStmt(p, c, a) => ConditionalIsScoped(h, p, c, a, env, st, k);
      case Sequence(ss) => SequenceIsScoped(h, ss, env, st, k - 1);
      case Assignment(x, e) => AssignmentIsScoped(h, x, e, env, st, k);
      case While(p, b) => WhileIsScoped(h, p, b, env, st, k - 1);
      case Return(_) => EnclosingIsScoped(h, n, env, st, k);
      case Block(_) => EnclosingIsScoped(h, n, env, st, k);
      case For(_, _, _, _) => ForIsScoped(h, n, env, st, k);
      case _ => ExpressionIsScoped(h, n, env, st, k);
    }
  }

  lemma {:induction false} ExpressionIsScoped(h: Host, n: Node, env: Env, st: State, k: nat)
    requires k > 0 && Sound(env, st) && IsExpr(n) && Scoped(n, Visible(st.frames, env))
    ensures ScopedResult(Eval(h, n, env, st, k))
    decreases k, 1, 0
  {
    hide GoodStore, Extends, IsIdentifier, EvalSequence, ListOfValues, Apply, EvalWhile, EvalDeclaration,
         EvalConditional, EvalBoolean, EvalApplication, EvalAssignment;
    match n
    case Lit(_) =>
    case EmptyListExpr =>
    case Name(x) => VisibleResolves(st.frames, env, x);
    case CondExpr(p, c, a) => ConditionalIsScoped(h, p, c, a, env, st, k);
    case BoolOp(op, l, r) => BooleanIsScoped(h, op, l, r, env, st, k);
    case FunDef(_, _) =>
    case Application(f, es) => ApplicationIsScoped(h, f, es, env, st, k);
    case Unsupported(_) =>
  }

  lemma {:induction false} EnclosingIsScoped(h: Host, n: Node, env: Env, st: State, k: nat)
    requires k > 0 && Sound(env, st) && IsStmt(n) && (n.Return? || n.Block?)
    requires Scoped(n, Visible(st.frames, env))
    ensures ScopedResult(Eval(h, n, env, st, k))
    decreases k, 0
  {
    hide GoodStore, Extends, IsIdentifier, ScopedStore, EvalSequence, ListOfValues, Apply, EvalWhile, EvalDeclaration,
         EvalConditional, EvalBoolean, EvalApplication, EvalAssignment;
    match n
    case Return(e) => EvalIsScoped(h, e, env, st, k - 1);
    case Block(b) =>
      ExtendIsGood(map[], env, st);
      ExtendIsScoped(map[], env, st);
      var (env1, st1) := Extend(map[], env, st);
      assert Visible(st1.frames, env1) == Visible(st.frames, env);
      EvalIsScoped(h, b, env1, st1, k - 1);
    case _ =>
  }

  lemma {:induction false} ForIsScoped(h: Host, n: Node, env: Env, st: State, k: nat)
    requires k > 0 && Sound(env, st) && IsStmt(n) && n.For? && Scoped(n, Visible(st.frames, env))
    ensures ScopedResult(Eval(h, n, env, st, k))
    decreases k, 0
  {
    hide GoodStore, Extends, IsIdentifier, ScopedStore, EvalSequence, ListOfValues, Apply, EvalWhile, EvalDeclaration,
         EvalConditional, EvalBoolean, EvalApplication, EvalAssignment;
    ForBlockIsStmt(n.init, n.predicate_, n.finaliser, n.loopBody);
    ForBlockIsScoped(n.init, n.predicate_, n.finaliser, n.loopBody, Visible(st.frames, env));
    EvalIsScoped(h, ForBlock(n.init, n.predicate_, n.finaliser, n.loopBody), env, st, k - 1);
  }

  lemma ForBlockIsScoped(init: Node, p: Node, f: Node, b: seq<Node>, bound: set<string>)
    requires Scoped(For(init, p, f, b), bound)
    ensures Scoped(ForBlock(init, p, f, b), bound)
  {
    var inner := bound + Declared(init);
    AppendIsScoped(b, f, inner);
    var loop := While(p, Block(Sequence(b + [f])));
    assert Scoped(Block(Sequence(b + [f])), inner);
    assert [init, loop][1..] == [loop];
    assert Scoped(loop, inner) && ScopedInOrder([loop][1..], inner + Declared(loop));
    assert ScopedInOrder([init, loop], bound);
    assert Scoped(Sequence([init, loop]), bound);
  }

  lemma {:induction false} AppendIsScoped(b: seq<Node>, f: Node, bound: set<string>)
    requires ScopedInOrder(b, bound) && Scoped(f, bound + DeclaredIn(b))
    ensures ScopedInOrder(b + [f], bound)
  {
    if b == [] {
      assert b + [f] == [f];
      assert bound + {} == bound;
    } else {
      assert (b + [f])[1..] == b[1..] + [f];
      assert bound + DeclaredIn(b) == (bound + Declared(b[0])) + DeclaredIn(b[1..]);
      AppendIsScoped(b[1..], f, bound + Declared(b[0]));
    }
  }

  /** Both invariants for a step in `env`; what was scoped before the step is scoped after it. */
  lemma {:induction false} Proceed(h: Host, n: Node, env: Env, st: State, k: nat) returns (r: Result<Value>)
    requires Sound(env, st) && (IsExpr(n) || IsStmt(n)) && Scoped(n, Visible(st.frames, env))
    ensures r == Eval(h, n, env, st, k) && ScopedResult(r) && GoodResult(st, r, IsExpr(n)) && Sound(env, r.st)
    ensures Visible(st.frames, env) <= Visible(r.st.frames, env)
    ensures r.Ok? ==> Declared(n) <= Visible(r.st.frames, env)
    decreases k, 2
  {
    hide Eval, GoodStore, IsIdentifier, ScopedStore;
    EvalIsScoped(h, n, env, st, k);
    EvalIsGood(h, n, env, st, k);
    r := Eval(h, n, env, st, k);
    VisibleGrows(st.frames, r.st.frames, env);
  }

  lemma {:induction false} DeclarationIsScoped(h: Host, x: string, e: Node, m: bool, env: Env, st: State, k: nat)
    requires k > 0 && Sound(env, st) && IsExpr(e) && IsIdentifier(x)
    requires Scoped(e, if e.FunDef? then Visible(st.frames, env) + {x} else Visible(st.frames, env))
    ensures var r := EvalDeclaration(h, x, e, m, env, st, k);
            ScopedResult(r) && (r.Ok? ==> x in Visible(r.st.frames, env))
    decreases k, 0
  {
    hide GoodStore, IsIdentifier;
    if e.FunDef? {
      if k > 1 { FunctionDeclarationIsScoped(x, Closure(st.next, e.parameters, e.body, env), m, env, st.frames); }
    } else {
      var r := Proceed(h, e, env, st, k - 1);
      if r.Ok? {
        var frames := Declare(r.st.frames, env[0], x, r.value, m);
        ScopedValueGrows(r.value, r.st.frames, frames);
        BindIsScoped(r.st.frames, env[0], x, Denoted(r.value, m));
        assert x in FrameAt(frames, env[0]);
      }
    }
  }

  /** A function may name itself: its closure is scoped once the declaration has bound it. */
  lemma FunctionDeclarationIsScoped(x: string, v: Value, m: bool, env: Env, frames: seq<Frame>)
    requires ScopedStore(frames) && GoodEnv(env, |frames|) && v.Closure? && v.env == env
    requires Scoped(v.body, Visible(frames, env) + {x} + Names(v.parameters))
    ensures var after := Declare(frames, env[0], x, v, m);
            ScopedStore(after) && x in Visible(after, env)
  {
    var after := Declare(frames, env[0], x, v, m);
    VisibleGrows(frames, after, env);
    assert x in FrameAt(after, env[0]);
    ScopedGrows(v.body, Visible(frames, env) + {x} + Names(v.parameters), Visible(after, env) + Names(v.parameters));
    BindIsScoped(frames, env[0], x, Denoted(v, m));
  }

  lemma {:induction false} AssignmentIsScoped(h: Host, x: string, e: Node, env: Env, st: State, k: nat)
    requires k > 0 && Sound(env, st) && IsExpr(e) && Scoped(Assignment(x, e), Visible(st.frames, env))
    ensures ScopedResult(EvalAssignment(h, x, e, env, st, k))
    decreases k, 0
  {
    hide GoodStore, IsIdentifier, Eval, IsExpr, IsStmt;
    var r := Proceed(h, e, env, st, k - 1);
    VisibleResolves(r.st.frames, env, x);
    if r.Ok? {
      var a := Resolve(r.st.frames, env, x).value;
      var frames := Assign(r.st.frames, env, x, r.value).value;
      ScopedValueGrows(r.value, r.st.frames, frames);
      BindIsScoped(r.st.frames, a, x, Denoted(r.value, r.st.frames[a][x].mutable));
    }
  }

  lemma {:induction false} ConditionalIsScoped(h: Host, p: Node, c: Node, a: Node, env: Env, st: State, k: nat)
    requires k > 0 && Sound(env, st) && IsExpr(p) && (IsExpr(c) || IsStmt(c)) && (IsExpr(a) || IsStmt(a))
    requires var bound := Visible(st.frames, env); Scoped(p, bound) && Scoped(c, bound) && Scoped(a, bound)
    ensures ScopedResult(EvalConditional(h, p, c, a, env, st, k))
    decreases k, 0
  {
    hide GoodStore, Extends, IsIdentifier, ScopedStore, Eval, IsExpr, IsStmt, Scoped;
    var r := Proceed(h, p, env, st, k - 1);
    if r.Ok? {
      var branch := if r.value == True then c else a;
      ScopedGrows(branch, Visible(st.frames, env), Visible(r.st.frames, env));
      EvalIsScoped(h, branch, env, r.st, k - 1);
    }
  }

  lemma {:induction false} BooleanIsScoped(h: Host, op: string, left: Node, right: Node, env: Env, st: State, k: nat)
    requires k > 0 && Sound(env, st) && IsExpr(left) && IsExpr(right)
    requires var bound := Visible(st.frames, env); Scoped(left, bound) && Scoped(right, bound)
    ensures ScopedResult(EvalBoolean(h, op, left, right, env, st, k))
    decreases k, 0
  {
    hide GoodStore, Extends, IsIdentifier, ScopedStore, Eval, IsExpr, IsStmt, Scoped;
    var r := Proceed(h, left, env, st, k - 1);
    if r.Ok? {
      ScopedGrows(right, Visible(st.frames, env), Visible(r.st.frames, env));
      EvalIsScoped(h, right, env, r.st, k - 1);
    }
  }

  lemma {:induction false} ApplicationIsScoped(h: Host, f: Node, es: seq<Node>, env: Env, st: State, k: nat)
    requires k > 0 && Sound(env, st) && IsExpr(Application(f, es)) &&
        Scoped(Application(f, es), Visible(st.frames, env))
    ensures ScopedResult(EvalApplication(h, f, es, env, st, k))
    decreases k, 0
  {
    hide GoodStore, IsIdentifier, Eval, ListOfValues, Apply;
    var r1 := Proceed(h, f, env, st, k - 1);
    if r1.Ok? {
      forall i | 0 <= i < |es| ensures Scoped(es[i], Visible(r1.st.frames, env)) {
        ScopedGrows(es[i], Visible(st.frames, env), Visible(r1.st.frames, env));
      }
      ValuesAreGood(h, es, env, r1.st, k - 1);
      ValuesAreScoped(h, es, env, r1.st, k - 1);
      var r2 := ListOfValues(h, es, env, r1.st, k - 1);
      if r2.Ok? {
        GoodValueGrows(r1.value, |r1.st.frames|, |r2.st.frames|);
        ScopedValueGrows(r1.value, r1.st.frames, r2.st.frames);
        ApplyIsScoped(h, r1.value, r2.value, r2.st, k - 1);
      }
    }
  }

  lemma {:induction false} SequenceIsScoped(h: Host, ss: seq<Node>, env: Env, st: State, k: nat)
    requires Sound(env, st) && (forall i | 0 <= i < |ss| :: IsStmt(ss[i])) && ScopedInOrder(ss, Visible(st.frames, env))
    ensures ScopedResult(EvalSequence(h, ss, env, st, k))
    decreases k, 0
  {
    hide GoodStore, Extends, IsIdentifier, ScopedStore, IsStmt, IsExpr, Eval, Scoped;
    if k > 0 && ss != [] {
      var r := Proceed(h, ss[0], env, st, k - 1);
      if r.Ok? {
        ScopedInOrderGrows(ss[1..], Visible(st.frames, env) + Declared(ss[0]), Visible(r.st.frames, env));
        SequenceIsScoped(h, ss[1..], env, r.st, k - 1);
      }
    }
  }

  ghost predicate ScopedValues(vs: seq<Value>, frames: seq<Frame>) {
    forall i | 0 <= i < |vs| :: ScopedValue(vs[i], frames)
  }

  lemma {:induction false} ValuesAreScoped(h: Host, es: seq<Node>, env: Env, st: State, k: nat)
    requires Sound(env, st) && forall i | 0 <= i < |es| :: IsExpr(es[i]) && Scoped(es[i], Visible(st.frames, env))
    ensures var r := ListOfValues(h, es, env, st, k);
            ScopedStore(r.st.frames) && if r.Ok? then ScopedValues(r.value, r.st.frames) else !r.error.UnboundName?
    decreases k, 0
  {
    hide GoodStore, IsIdentifier, ScopedStore, IsStmt, IsExpr, Eval, Scoped;
    if k > 0 && es != [] {
      var r1 := Proceed(h, es[0], env, st, k - 1);
      if r1.Ok? {
        forall i | 0 <= i < |es| ensures Scoped(es[i], Visible(r1.st.frames, env)) {
          ScopedGrows(es[i], Visible(st.frames, env), Visible(r1.st.frames, env));
        }
        ValuesAreGood(h, es[1..], env, r1.st, k - 1);
        ValuesAreScoped(h, es[1..], env, r1.st, k - 1);
        ScopedValueGrows(r1.value, r1.st.frames, ListOfValues(h, es[1..], env, r1.st, k - 1).st.frames);
      }
    }
  }

  lemma {:induction false} ApplyIsScoped(h: Host, f: Value, args: seq<Value>, st: State, k: nat)
    requires GoodStore(st.frames) && GoodValue(f, |st.frames|) && GoodValues(args, |st.frames|)
    requires ScopedStore(st.frames) && ScopedValue(f, st.frames) && ScopedValues(args, st.frames)
    ensures ScopedResult(Apply(h, f, args, st, k))
    decreases k, 0
  {
    hide GoodStore, Extends, IsIdentifier, ScopedStore, Eval;
    if k > 0 {
      match f
      case Builtin(name) => BuiltinIsGood(h, name, args, st); BuiltinIsScoped(h, name, args, st);
      case Closure(_, ps, body, env) =>
        if |ps| == |args| {
          ExtendIsGood(MakeFrame(ps, args), env, st);
          ExtendIsScoped(MakeFrame(ps, args), env, st);
          var (env1, st1) := Extend(MakeFrame(ps, args), env, st);
          assert Visible(st1.frames, env1) == Visible(st.frames, env) + Names(ps);
          EvalIsScoped(h, body, env1, st1, k - 1);
        }
      case _ =>
    }
  }

  lemma BuiltinIsScoped(h: Host, f: string, args: seq<Value>, st: State)
    requires ScopedValues(args, st.frames)
    ensures var r := ApplyBuiltin(h, f, args, st);
            r.st.frames == st.frames && if r.Ok? then ScopedValue(r.value, st.frames) else !r.error.UnboundName?
  {
    MakeListIsScoped(args, st.next, st.frames);
    assert forall i: nat :: ScopedValue(Arg(args, i), st.frames);
  }

  lemma {:induction false} MakeListIsScoped(vs: seq<Value>, next: nat, frames: seq<Frame>)
    requires ScopedValues(vs, frames)
    ensures ScopedValue(MakeList(vs, next).0, frames)
  {
    if vs != [] { MakeListIsScoped(vs[1..], next, frames); }
  }

  lemma {:induction false} WhileIsScoped(h: Host, p: Node, b: Node, env: Env, st: State, k: nat)
    requires Sound(env, st) && IsExpr(p) && IsStmt(b)
    requires Scoped(While(p, b), Visible(st.frames, env))
    ensures ScopedResult(EvalWhile(h, p, b, env, st, k))
    decreases k, 0
  {
    hide GoodStore, Extends, IsIdentifier, ScopedStore, IsStmt, IsExpr, Truthy, Eval;
    if k > 0 {
      var r1 := Proceed(h, p, env, st, k - 1);
      if r1.Ok? && Truthy(r1.value) {
        ScopedGrows(While(p, b), Visible(st.frames, env), Visible(r1.st.frames, env));
        LoopIsScoped(h, p, b, env, r1.st, k - 1);
      }
    }
  }

  /** The rest of an iteration, after its test. */
  lemma {:induction false} LoopIsScoped(h: Host, p: Node, b: Node, env: Env, st: State, k: nat)
    requires Sound(env, st) && IsExpr(p) && IsStmt(b)
    requires Scoped(While(p, b), Visible(st.frames, env))
    ensures var r := Eval(h, b, env, st, k);
            if r.Ok? then ScopedResult(EvalWhile(h, p, b, env, r.st, k)) else ScopedResult(r)
    decreases k, 3
  {
    hide GoodStore, Extends, IsIdentifier, ScopedStore, IsStmt, IsExpr, Truthy, Eval;
    var r := Proceed(h, b, env, st, k);
    if r.Ok? {
      ScopedGrows(While(p, b), Visible(st.frames, env), Visible(r.st.frames, env));
      WhileIsScoped(h, p, b, env, r.st, k);
    }
  }

  // ----- Whole sessions -----

  /** Scope soundness for a session: when every program is scoped by the names bound globally at its
      start, none of them, at any fuel, fails for want of a name. */
  lemma {:induction false} SessionIsScoped(h: Host, programs: seq<(Node, nat)>, st: State, i: nat)
    requires Sound(GLOBAL, st) && i < |programs| && forall j | 0 <= j <= i :: IsStmt(programs[j].0)
    requires forall j | 0 <= j <= i ::
               Scoped(programs[j].0, Visible(Session(h, programs[..j], st).frames, GLOBAL))
    ensures var r := EvalToplevel(h, programs[i].0, Session(h, programs[..i], st), programs[i].1);
            r.Fail? ==> !r.error.UnboundName?
  {
    hide Eval, Scoped, IsStmt;
    assert programs[..0] == [];
    var r := Proceed(h, programs[0].0, GLOBAL, st, programs[0].1);
    if i > 0 {
      var rest := programs[1..];
      forall j | 0 <= j < i ensures Session(h, rest[..j], r.st) == Session(h, programs[..j + 1], st) {
        assert rest[..j] == programs[..j + 1][1..];
      }
      forall j | 0 <= j < i
        ensures IsStmt(rest[j].0) && Scoped(rest[j].0, Visible(Session(h, rest[..j], r.st).frames, GLOBAL))
      {
        assert rest[j] == programs[j + 1];
      }
      SessionIsScoped(h, rest, r.st, i - 1);
    }
  }

  lemma InitialStateIsSound(pi: Number)
    ensures Sound(GLOBAL, InitialState(pi))
    ensures Visible(InitialState(pi).frames, GLOBAL) == BUILTIN_NAMES + {"undefined", "math_PI"}
  {
    InitialStateIsGood(pi);
    assert GLOBAL[1..] == [];
  }

  /** What names mean at the start. */
  lemma InitialNames(pi: Number, x: string)
    ensures Lookup(InitialState(pi).frames, GLOBAL, x) ==
            if x in {"pair", "head", "tail", "list", "is_empty_list", "display", "error"} ||
               x in {"+", "-", "*", "/", "%", "===", "!==", "<", "<=", ">", ">=", "!"} then Some(Builtin(x))
            else if x == "undefined" then Some(Undefined)
            else if x == "math_PI" then Some(P(Num(pi)))
            else None
  {
    assert GLOBAL[1..] == [];
  }

  /** The first program of a session needs only the names set up at the start. */
  lemma ProgramIsScoped(h: Host, pi: Number, program: Node, k: nat)
    requires IsStmt(program) && Scoped(program, BUILTIN_NAMES + {"undefined", "math_PI"})
    ensures var r := EvalToplevel(h, program, InitialState(pi), k);
            r.Fail? ==> !r.error.UnboundName?
  {
    hide Eval, Scoped, IsStmt, InitialState, Visible, ScopedStore, GoodStore;
    InitialStateIsSound(pi);
    EvalIsScoped(h, program, GLOBAL, InitialState(pi), k);
  }
}

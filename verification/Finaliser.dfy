/** A for loop's finaliser runs in the frame of the loop body.  If the body declares none of the names free in
    it, it may as well run in the frame of the loop.
 */
module Finaliser {
  import opened Options
  import opened Syntax
  import opened Environment
  import opened Evaluator
  import opened Scope
  import opened Growth
  import opened Alike
  import Confinement
  import opened ForLoop

  // ----- Alike environments and stores give alike results -----

  /** Code that uses `names`, and may declare some if `declares`, can run in either environment. */
  ghost predicate Fit(names: set<string>, declares: bool, env: Env, env': Env, s: State, t: State, sealed: Sealed) {
    && AlikeState(s, t, sealed)
    && AlikeEnv(env, env', names, s.frames, sealed)
    && (declares ==> SameHead(env, env', s.frames, sealed))
  }

  lemma FitLater(names: set<string>, declares: bool, env: Env, env': Env, s: State, t: State, s': State, t': State,
                 sealed: Sealed)
    requires Fit(names, declares, env, env', s, t, sealed) && AlikeState(s', t', sealed) && Extends(s.frames, s'.frames)
    ensures Fit(names, declares, env, env', s', t', sealed)
  {
    hide AlikeState;
    AlikeEnvLater(env, env', names, names, s.frames, s'.frames, sealed, sealed);
  }

  lemma FitLess(names: set<string>, declares: bool, fewer: set<string>, less: bool, env: Env, env': Env, s: State,
                t: State,
                sealed: Sealed)
    requires Fit(names, declares, env, env', s, t, sealed) && fewer <= names && (less ==> declares)
    ensures Fit(fewer, less, env, env', s, t, sealed)
  {
    hide AlikeState;
    AlikeEnvLater(env, env', names, fewer, s.frames, s.frames, sealed, sealed);
  }

  /** Code behind a new frame, which may always be declared in. */
  lemma FitBehind(names: set<string>, env: Env, env': Env, f: Frame, g: Frame, s: State, t: State, sealed: Sealed)
    requires AlikeState(s, t, sealed) && AlikeFrame(f, g, s.frames, sealed)
    requires AlikeEnv(env, env', names - f.Keys, s.frames, sealed)
    ensures var (env1, s1) := Extend(f, env, s);
            var (env1', t1) := Extend(g, env', t);
            Fit(names, true, env1, env1', s1, t1, sealed)
  {
    AlikeExtend(f, g, s, t, sealed);
    AlikeEnclosed(env, env', names, f, s, sealed);
    hide AlikeEnv, AlikeFrame;
  }

  lemma EvalExtends(h: Host, n: Node, env: Env, st: State, k: nat)
    ensures Extends(st.frames, Eval(h, n, env, st, k).st.frames)
  {
    hide Eval;
    EvalGrows(h, n, env, st, k);
  }

  lemma {:induction false} AlikeEval(h: Host, n: Node, env: Env, env': Env, s: State, t: State, k: nat, sealed: Sealed)
    requires Fit(Free(n), Declares(n) != {}, env, env', s, t, sealed)
    ensures AlikeResult(Eval(h, n, env, s, k), Eval(h, n, env', t, k), sealed)
    decreases k, 1
  {
    hide EvalSequence, ListOfValues, Apply, EvalWhile, EvalDeclaration, EvalConditional, EvalBoolean, EvalApplication;
    hide EvalAssignment, AlikeState, AlikeEnv;
    var names, declares := Free(n), Declares(n) != {};
    if k > 0 {
      match n
      case Name(x) => AlikeName(x, env, env', s, t, sealed);
      case ConstDecl(x, e) => AlikeDeclaration(h, x, e, false, env, env', s, t, k, sealed);
      case VarDecl(x, e) => AlikeDeclaration(h, x, e, true, env, env', s, t, k, sealed);
      case CondStmt(p, c, a) => AlikeConditional(h, p, c, a, env, env', s, t, k, sealed, names, declares);
      case CondExpr(p, c, a) => AlikeConditional(h, p, c, a, env, env', s, t, k, sealed, names, declares);
      case BoolOp(op, l, r) => AlikeBoolean(h, op, l, r, env, env', s, t, k, sealed, names, declares);
      case Sequence(ss) => AlikeSequence(h, ss, env, env', s, t, k - 1, sealed);
      case Application(f, es) => AlikeApplication(h, f, es, env, env', s, t, k, sealed, names, declares);
      case Assignment(x, e) => AlikeAssignment(h, x, e, env, env', s, t, k, sealed, names, declares);
      case While(p, b) => AlikeWhile(h, p, b, env, env', s, t, k - 1, sealed, names, declares);
      case _ => AlikeSimple(h, n, env, env', s, t, k, sealed);
    }
  }

  lemma {:induction false} AlikeSimple(h: Host, n: Node, env: Env, env': Env, s: State, t: State, k: nat,
                                       sealed: Sealed)
    requires k > 0 && Fit(Free(n), Declares(n) != {}, env, env', s, t, sealed)
    requires n.Lit? || n.EmptyListExpr? || n.FunDef? || n.Return? || n.Block? || n.For? || n.Unsupported?
    ensures AlikeResult(Eval(h, n, env, s, k), Eval(h, n, env', t, k), sealed)
    decreases k, 0, 1
  {
    hide EvalSequence, ListOfValues, Apply, EvalWhile, EvalDeclaration, EvalConditional, EvalBoolean, EvalApplication;
    hide EvalAssignment, AlikeEnv, AlikeFrame, AreSealed;
    match n
    case Return(e) => AlikeEval(h, e, env, env', s, t, k - 1, sealed);
    case Block(b) => AlikeBlock(h, b, env, env', s, t, k, sealed);
    case For(i, p, f, b) =>
      FreeForBlock(i, p, f, b);
      AlikeEval(h, ForBlock(i, p, f, b), env, env', s, t, k - 1, sealed);
    case _ =>
  }

  lemma {:induction false} AlikeBlock(h: Host, b: Node, env: Env, env': Env, s: State, t: State, k: nat, sealed: Sealed)
    requires k > 0 && Fit(Free(b), false, env, env', s, t, sealed)
    ensures AlikeResult(Eval(h, Block(b), env, s, k), Eval(h, Block(b), env', t, k), sealed)
    decreases k, 0, 0
  {
    hide AlikeState, AlikeEnv, Free, Declares;
    var f: Frame := map[];
    assert Free(b) - f.Keys == Free(b);
    FitBehind(Free(b), env, env', f, f, s, t, sealed);
    var (env1, s1) := Extend(map[], env, s);
    var (env1', t1) := Extend(map[], env', t);
    FitLess(Free(b), true, Free(b), Declares(b) != {}, env1, env1', s1, t1, sealed);
    AlikeEval(h, b, env1, env1', s1, t1, k - 1, sealed);
  }

  lemma FreeForBlock(i: Node, p: Node, f: Node, b: seq<Node>)
    ensures Free(ForBlock(i, p, f, b)) == Free(For(i, p, f, b)) && Declares(ForBlock(i, p, f, b)) == {}
  {
    var loop := While(p, Block(Sequence(b + [f])));
    FreeAppended(b, f);
    FreeOfBlock(b + [f]);
    FreeOfBlock([i, loop]);
    FreeOfTwo(i, loop);
  }

  lemma FreeOfBlock(ss: seq<Node>)
    ensures Free(Block(Sequence(ss))) == FreeIn(ss)
  {
    hide FreeIn;
    assert Free(Sequence(ss)) == FreeIn(ss);
  }

  lemma FreeOfTwo(a: Node, b: Node)
    ensures FreeIn([a, b]) == Free(a) + (Free(b) - Declared(a))
  {
    hide Free, Declared;
    assert [a, b][1..] == [b] && [b][1..] == [] && FreeIn([]) == {};
    assert FreeIn([b]) == Free(b) + ({} - Declared(b));
  }

  lemma {:induction false} FreeAppended(b: seq<Node>, f: Node)
    ensures FreeIn(b + [f]) == FreeIn(b) + (Free(f) - DeclaredIn(b))
  {
    if b == [] {
      assert b + [f] == [f] && [f][1..] == [];
    } else {
      assert (b + [f])[1..] == b[1..] + [f];
      FreeAppended(b[1..], f);
    }
  }

  /** Evaluating a part, in the environments of the whole. */
  lemma {:induction false} AlikePart(h: Host, n: Node, env: Env, env': Env, s: State, t: State, k: nat, sealed: Sealed,
                                     names: set<string>, declares: bool)
    returns (r: Result<Value>, q: Result<Value>)
    requires Fit(names, declares, env, env', s, t, sealed) && Free(n) <= names && (Declares(n) != {} ==> declares)
    ensures r == Eval(h, n, env, s, k) && q == Eval(h, n, env', t, k) && AlikeResult(r, q, sealed)
    ensures Fit(names, declares, env, env', r.st, q.st, sealed) && Extends(s.frames, r.st.frames)
    decreases k, 2
  {
    hide Eval, AlikeState, AlikeEnv, Free, Declares, Extends, AlikeValue;
    FitLess(names, declares, Free(n), Declares(n) != {}, env, env', s, t, sealed);
    AlikeEval(h, n, env, env', s, t, k, sealed);
    r, q := Eval(h, n, env, s, k), Eval(h, n, env', t, k);
    EvalExtends(h, n, env, s, k);
    FitLater(names, declares, env, env', s, t, r.st, q.st, sealed);
  }

  lemma AlikeName(x: string, env: Env, env': Env, s: State, t: State, sealed: Sealed)
    requires Fit({x}, false, env, env', s, t, sealed)
    ensures AlikeResult(EvalName(x, env, s), EvalName(x, env', t), sealed)
  {
    hide AlikeEnv, AlikeValue;
    AlikeResolve(s, t, env, env', {x}, x, sealed);
    var a := Resolve(s.frames, env, x);
    if a.Some? { assert AlikeFrame(s.frames[a.value], t.frames[a.value], s.frames, sealed); }
  }

  lemma {:induction false} AlikeDeclaration(h: Host, x: string, e: Node, m: bool, env: Env, env': Env, s: State,
                                            t: State, k: nat, sealed: Sealed)
    requires k > 0 && Fit(if e.FunDef? then Free(e) - {x} else Free(e), true, env, env', s, t, sealed)
    ensures AlikeResult(EvalDeclaration(h, x, e, m, env, s, k), EvalDeclaration(h, x, e, m, env', t, k), sealed)
    decreases k, 0
  {
    if e.FunDef? {
      AlikeFunction(h, x, e, m, env, env', s, t, k, sealed);
    } else {
      hide Eval, AlikeState, AlikeEnv, Free, Declares, Extends;
      var r, q := AlikePart(h, e, env, env', s, t, k - 1, sealed, Free(e), true);
      if r.Ok? { AlikeDeclare(env, env', r.st, q.st, x, r.value, q.value, m, sealed); }
    }
  }

  lemma AlikeDeclare(env: Env, env': Env, s: State, t: State, x: string, v: Value, w: Value, m: bool, sealed: Sealed)
    requires AlikeState(s, t, sealed) && SameHead(env, env', s.frames, sealed) && AlikeValue(v, w, s.frames, sealed)
    ensures AlikeState(s.(frames := Declare(s.frames, env[0], x, v, m)),
        t.(frames := Declare(t.frames, env'[0], x, w, m)), sealed)
    ensures AlikeValue(Undefined, Undefined, s.frames, sealed)
  {
    hide AlikeEnv, AlikeFrame;
    var later := s.frames[env[0] := s.frames[env[0]][x := Denoted(v, m)]];
    AlikeValueLater(v, w, s.frames, later, sealed, sealed);
    AlikeBind(s, t, env[0], x, v, w, m, sealed);
  }

  /** A function is alike once the declaration has bound its name. */
  lemma AlikeFunction(h: Host, x: string, e: Node, m: bool, env: Env, env': Env, s: State, t: State, k: nat,
                      sealed: Sealed)
    requires k > 0 && e.FunDef? && Fit(Free(e) - {x}, true, env, env', s, t, sealed)
    ensures AlikeResult(EvalDeclaration(h, x, e, m, env, s, k), EvalDeclaration(h, x, e, m, env', t, k), sealed)
  {
    hide AlikeFrame, AreSealed;
    if k > 1 {
      var v, w := Closure(s.next, e.parameters, e.body, env), Closure(t.next, e.parameters, e.body, env');
      var later := s.frames[env[0] := s.frames[env[0]][x := Denoted(v, m)]];
      HeadBinds(env, env', Free(e), {x}, s.frames, later, sealed);
      hide AlikeEnv;
      assert AlikeValue(v, w, later, sealed);
      AlikeBind(s.(next := s.next + 1), t.(next := t.next + 1), env[0], x, v, w, m, sealed);
    }
  }

  lemma {:induction false} AlikeAssignment(h: Host, x: string, e: Node, env: Env, env': Env, s: State, t: State, k: nat,
                                           sealed: Sealed, names: set<string>, declares: bool)
    requires k > 0 && Fit(names, declares, env, env', s, t, sealed)
    requires Free(e) <= names && x in names && (Declares(e) != {} ==> declares)
    ensures AlikeResult(EvalAssignment(h, x, e, env, s, k), EvalAssignment(h, x, e, env', t, k), sealed)
    decreases k, 0
  {
    hide Eval, AlikeEnv, Free, Declares, Extends, AlikeFrame, AreSealed;
    var r, q := AlikePart(h, e, env, env', s, t, k - 1, sealed, names, declares);
    if r.Ok? { AlikeAssign(env, env', r.st, q.st, names, x, r.value, q.value, sealed); }
  }

  lemma AlikeAssign(env: Env, env': Env, s: State, t: State, names: set<string>, x: string, v: Value, w: Value,
                    sealed: Sealed)
    requires AlikeState(s, t, sealed) && AlikeEnv(env, env', names, s.frames, sealed) && x in names
    requires AlikeValue(v, w, s.frames, sealed)
    ensures var r, q := Assign(s.frames, env, x, v), Assign(t.frames, env', x, w);
            if r.None? then q.None?
            else
              q.Some? && AlikeState(s.(frames := r.value), t.(frames := q.value), sealed) &&
              AlikeValue(v, w, r.value, sealed)
  {
    AlikeResolve(s, t, env, env', names, x, sealed);
    hide AlikeEnv, AlikeValue;
    var a := Resolve(s.frames, env, x);
    if a.Some? {
      assert AlikeFrame(s.frames[a.value], t.frames[a.value], s.frames, sealed);
      hide AlikeFrame;
      var m := s.frames[a.value][x].mutable;
      var later := s.frames[a.value := s.frames[a.value][x := Denoted(v, m)]];
      AlikeValueLater(v, w, s.frames, later, sealed, sealed);
      AlikeBind(s, t, a.value, x, v, w, m, sealed);
    }
  }

  lemma {:induction false} AlikeConditional(h: Host, p: Node, c: Node, a: Node, env: Env, env': Env, s: State, t: State,
                                            k: nat, sealed: Sealed, names: set<string>, declares: bool)
    requires k > 0 && Fit(names, declares, env, env', s, t, sealed)
    requires Free(p) <= names && Free(c) <= names && Free(a) <= names
    requires Declares(p) + Declares(c) + Declares(a) != {} ==> declares
    ensures AlikeResult(EvalConditional(h, p, c, a, env, s, k), EvalConditional(h, p, c, a, env', t, k), sealed)
    decreases k, 0
  {
    hide Eval, AlikeState, AlikeEnv, Free, Declares, Extends, Fit;
    var r, q := AlikePart(h, p, env, env', s, t, k - 1, sealed, names, declares);
    if r.Ok? {
      IsTrueAlike(r.value, q.value, r.st.frames, sealed);
      var r2, q2 := AlikePart(h, if r.value == True then c else a, env, env', r.st, q.st, k - 1, sealed, names,
          declares);
    }
  }

  lemma IsTrueAlike(v: Value, w: Value, frames: seq<Frame>, sealed: Sealed)
    requires AlikeValue(v, w, frames, sealed)
    ensures (v == True <==> w == True) && (v.ReturnValue? <==> w.ReturnValue?)
  {
  }

  lemma {:induction false} AlikeBoolean(h: Host, op: string, l: Node, r: Node, env: Env, env': Env, s: State, t: State,
                                        k: nat, sealed: Sealed, names: set<string>, declares: bool)
    requires k > 0 && Fit(names, declares, env, env', s, t, sealed)
    requires Free(l) <= names && Free(r) <= names && (Declares(l) + Declares(r) != {} ==> declares)
    ensures AlikeResult(EvalBoolean(h, op, l, r, env, s, k), EvalBoolean(h, op, l, r, env', t, k), sealed)
    decreases k, 0
  {
    hide Eval, AlikeState, AlikeEnv, Free, Declares, Extends, Fit;
    var v, w := AlikePart(h, l, env, env', s, t, k - 1, sealed, names, declares);
    if v.Ok? {
      IsTrueAlike(v.value, w.value, v.st.frames, sealed);
      var v2, w2 := AlikePart(h, r, env, env', v.st, w.st, k - 1, sealed, names, declares);
    }
  }

  lemma {:induction false} AlikeApplication(h: Host, f: Node, es: seq<Node>, env: Env, env': Env, s: State, t: State,
                                            k: nat, sealed: Sealed, names: set<string>, declares: bool)
    requires k > 0 && Fit(names, declares, env, env', s, t, sealed)
    requires Free(f) <= names && FreeAll(es) <= names && (Declares(f) + DeclaresAll(es) != {} ==> declares)
    ensures AlikeResult(EvalApplication(h, f, es, env, s, k), EvalApplication(h, f, es, env', t, k), sealed)
    decreases k, 0
  {
    hide Eval, ListOfValues, Apply, AlikeState, AlikeEnv, AlikeValue, Free, FreeAll, Declares, DeclaresAll, Extends,
         Fit;
    var r, q := AlikePart(h, f, env, env', s, t, k - 1, sealed, names, declares);
    if r.Ok? {
      AlikeOperands(h, es, env, env', r.st, q.st, k - 1, sealed, names, declares);
      var vs, ws := ListOfValues(h, es, env, r.st, k - 1), ListOfValues(h, es, env', q.st, k - 1);
      if vs.Ok? {
        AlikeValueLater(r.value, q.value, r.st.frames, vs.st.frames, sealed, sealed);
        AlikeApply(h, r.value, q.value, vs.value, ws.value, vs.st, ws.st, k - 1, sealed);
      }
    }
  }

  lemma {:induction false} AlikeOperands(h: Host, es: seq<Node>, env: Env, env': Env, s: State, t: State, k: nat,
                                         sealed: Sealed, names: set<string>, declares: bool)
    requires Fit(names, declares, env, env', s, t, sealed)
    requires FreeAll(es) <= names && (DeclaresAll(es) != {} ==> declares)
    ensures var r, q := ListOfValues(h, es, env, s, k), ListOfValues(h, es, env', t, k);
            && AlikeState(r.st, q.st, sealed) && Extends(s.frames, r.st.frames)
            && if r.Ok? then q.Ok? && AlikeValues(r.value, q.value, r.st.frames, sealed)
               else q.Fail? && q.error == r.error
    decreases k, 0
  {
    hide Eval, AlikeState, AlikeEnv, AlikeValue, Free, Declares;
    if k > 0 && es != [] {
      var r, q := AlikePart(h, es[0], env, env', s, t, k - 1, sealed, names, declares);
      if r.Ok? {
        AlikeOperands(h, es[1..], env, env', r.st, q.st, k - 1, sealed, names, declares);
        var vs := ListOfValues(h, es[1..], env, r.st, k - 1);
        AlikeValueLater(r.value, q.value, r.st.frames, vs.st.frames, sealed, sealed);
      }
    }
  }

  lemma {:induction false} AlikeApply(h: Host, f: Value, g: Value, vs: seq<Value>, ws: seq<Value>, s: State, t: State,
                                      k: nat, sealed: Sealed)
    requires AlikeState(s, t, sealed) && AlikeValue(f, g, s.frames, sealed) && AlikeValues(vs, ws, s.frames, sealed)
    ensures AlikeResult(Apply(h, f, vs, s, k), Apply(h, g, ws, t, k), sealed)
    decreases k, 0
  {
    hide Eval, AlikeState, AlikeEnv, Free, Declares, ApplyBuiltin, AlikeFrame;
    if k > 0 {
      match f
      case Builtin(name) => AlikeBuiltin(h, name, vs, ws, s, t, sealed);
      case Closure(_, ps, body, env) =>
        if |ps| == |vs| { AlikeCall(h, ps, body, env, g.env, vs, ws, s, t, k - 1, sealed); }
      case _ =>
    }
  }

  lemma {:induction false} AlikeCall(h: Host, ps: seq<string>, body: Node, env: Env, env': Env, vs: seq<Value>,
                                     ws: seq<Value>, s: State, t: State, k: nat, sealed: Sealed)
    requires AlikeState(s, t, sealed) && AlikeValues(vs, ws, s.frames, sealed) && |ps| == |vs|
    requires AlikeEnv(env, env', Free(body) - Names(ps), s.frames, sealed)
    ensures var (env1, s1) := Extend(MakeFrame(ps, vs), env, s);
            var (env1', t1) := Extend(MakeFrame(ps, ws), env', t);
            AlikeResult(Eval(h, body, env1, s1, k), Eval(h, body, env1', t1, k), sealed)
    decreases k, 2
  {
    hide Eval, AlikeState, AlikeEnv, Free, Declares, AlikeFrame, AlikeValue;
    AlikeMakeFrame(ps, vs, ws, s.frames, sealed);
    assert MakeFrame(ps, vs).Keys == Names(ps);
    FitBehind(Free(body), env, env', MakeFrame(ps, vs), MakeFrame(ps, ws), s, t, sealed);
    var (env1, s1) := Extend(MakeFrame(ps, vs), env, s);
    var (env1', t1) := Extend(MakeFrame(ps, ws), env', t);
    FitLess(Free(body), true, Free(body), Declares(body) != {}, env1, env1', s1, t1, sealed);
    AlikeEval(h, body, env1, env1', s1, t1, k, sealed);
  }

  lemma {:induction false} AlikeSequence(h: Host, ss: seq<Node>, env: Env, env': Env, s: State, t: State, k: nat,
                                         sealed: Sealed)
    requires Fit(FreeIn(ss), DeclaresAll(ss) != {}, env, env', s, t, sealed)
    ensures AlikeResult(EvalSequence(h, ss, env, s, k), EvalSequence(h, ss, env', t, k), sealed)
    decreases k, 0
  {
    hide Eval, AlikeState, AlikeEnv, Free, Declares, Extends;
    if k > 0 && ss != [] {
      var r, q := AlikePart(h, ss[0], env, env', s, t, k - 1, sealed, FreeIn(ss), DeclaresAll(ss) != {});
      if r.Ok? {
        IsTrueAlike(r.value, q.value, r.st.frames, sealed);
        RestFits(h, ss, env, env', s, t, r.st, q.st, k - 1, sealed);
        AlikeSequence(h, ss[1..], env, env', r.st, q.st, k - 1, sealed);
      }
    }
  }

  /** After a statement the names it has declared may be used. */
  lemma RestFits(h: Host, ss: seq<Node>, env: Env, env': Env, s: State, t: State, s': State, t': State, k: nat,
                 sealed: Sealed)
    requires ss != [] && Fit(FreeIn(ss), DeclaresAll(ss) != {}, env, env', s, t, sealed)
    requires Fit(FreeIn(ss), DeclaresAll(ss) != {}, env, env', s', t', sealed) && Extends(s.frames, s'.frames)
    requires Eval(h, ss[0], env, s, k).Ok? && s' == Eval(h, ss[0], env, s, k).st
    ensures Fit(FreeIn(ss[1..]), DeclaresAll(ss[1..]) != {}, env, env', s', t', sealed)
  {
    hide Eval, AlikeState, AlikeEnv, Free;
    var names, rest, d := FreeIn(ss), FreeIn(ss[1..]), Declared(ss[0]);
    AlikeEnvLater(env, env', names, rest - d, s.frames, s.frames, sealed, sealed);
    if d == {} {
      assert rest - d == rest;
      AlikeEnvLater(env, env', rest, rest, s.frames, s'.frames, sealed, sealed);
    } else {
      DeclaredIsBound(h, ss[0], env, s, k);
      assert d <= FrameAt(s'.frames, env[0]).Keys;
      HeadBinds(env, env', rest, d, s.frames, s'.frames, sealed);
    }
  }

  lemma DeclaredIsBound(h: Host, n: Node, env: Env, st: State, k: nat)
    requires Eval(h, n, env, st, k).Ok? && env != [] && env[0] < |st.frames|
    ensures Declared(n) <= FrameAt(Eval(h, n, env, st, k).st.frames, env[0]).Keys
  {
    hide EvalSequence, ListOfValues, Apply, EvalWhile, EvalConditional, EvalBoolean, EvalApplication, EvalAssignment;
    if n.ConstDecl? || n.VarDecl? { EvalExtends(h, n.value, env, st, k - 1); }
  }

  lemma {:induction false} AlikeWhile(h: Host, p: Node, b: Node, env: Env, env': Env, s: State, t: State, k: nat,
                                      sealed: Sealed, names: set<string>, declares: bool)
    requires Fit(names, declares, env, env', s, t, sealed)
    requires Free(p) <= names && Free(b) <= names && (Declares(p) + Declares(b) != {} ==> declares)
    ensures AlikeResult(EvalWhile(h, p, b, env, s, k), EvalWhile(h, p, b, env', t, k), sealed)
    decreases k, 0
  {
    hide Eval, AlikeEnv, Free, Declares, Extends, Truthy, AlikeFrame, AreSealed;
    if k > 0 {
      var r, q := AlikePart(h, p, env, env', s, t, k - 1, sealed, names, declares);
      if r.Ok? {
        AlikePrimitives(r.value, q.value, r.value, q.value, r.st.frames, sealed);
        if Truthy(r.value) { AlikeLoop(h, p, b, env, env', r.st, q.st, k - 1, sealed, names, declares); }
      }
    }
  }

  lemma {:induction false} AlikeLoop(h: Host, p: Node, b: Node, env: Env, env': Env, s: State, t: State, k: nat,
                                     sealed: Sealed, names: set<string>, declares: bool)
    requires Fit(names, declares, env, env', s, t, sealed)
    requires Free(p) <= names && Free(b) <= names && (Declares(p) + Declares(b) != {} ==> declares)
    ensures var r, q := Eval(h, b, env, s, k), Eval(h, b, env', t, k);
            AlikeResult(if r.Ok? then EvalWhile(h, p, b, env, r.st, k) else r,
                        if q.Ok? then EvalWhile(h, p, b, env', q.st, k) else q, sealed)
    decreases k, 3
  {
    hide Eval, EvalWhile, AlikeState, AlikeEnv, AlikeValue, Free, Declares, Extends, Fit;
    var r, q := AlikePart(h, b, env, env', s, t, k, sealed, names, declares);
    if r.Ok? { AlikeWhile(h, p, b, env, env', r.st, q.st, k, sealed, names, declares); }
  }

  // ----- The loop with its finaliser outside the frame of the body -----

  /** A new frame for the initialiser, then iterations. */
  function DirectForOutside(h: Host, init: Node, p: Node, fin: Node, body: seq<Node>, env: Env, st: State, k: nat)
    : Result<Value>
  {
    var (env1, st1) := Extend(map[], env, st);
    var (_, st2) :- Eval(h, init, env1, st1, k);
    IterateOutside(h, p, fin, body, env1, st2, k)
  }

  /** Like `Iterate`, but the finaliser runs in the frame of the loop. */
  function IterateOutside(h: Host, p: Node, fin: Node, body: seq<Node>, env: Env, st: State, k: nat): Result<Value>
    decreases k
  {
    if k == 0 then Fail(OutOfFuel, st)
    else
      var (v, st1) :- Eval(h, p, env, st, k - 1);
      if !Truthy(v) then Ok(True, st1)
      else
        var (env2, st2) := Extend(map[], env, st1);
        var (returned, st3) :- RunBody(h, body, env2, st2, k - 1);
        if returned then IterateOutside(h, p, fin, body, env, st3, k - 1)
        else
          var (_, st4) :- Eval(h, fin, env, st3, k - 1);
          IterateOutside(h, p, fin, body, env, st4, k - 1)
  }

  /** The body declares none of the names free in the finaliser, which declares nothing. */
  ghost predicate Separate(fin: Node, body: seq<Node>) {
    DeclaresAll(body) !! Free(fin) && Declares(fin) == {}
  }

  /** Two stores at the start of an iteration in one environment, and whose first frame is the loop's. */
  ghost predicate Ahead(env: Env, s: State, t: State, sealed: Sealed) {
    AlikeState(s, t, sealed) && SameHead(env, env, s.frames, sealed)
  }

  lemma AheadFits(names: set<string>, env: Env, s: State, t: State, sealed: Sealed)
    requires Ahead(env, s, t, sealed)
    ensures Fit(names, true, env, env, s, t, sealed)
  {
    hide AlikeState;
    AlikeItself(env, names, s.frames, sealed);
  }

  lemma AheadLater(env: Env, s: State, t: State, s': State, t': State, sealed: Sealed)
    requires Ahead(env, s, t, sealed) && AlikeState(s', t', sealed) && Extends(s.frames, s'.frames)
    ensures Ahead(env, s', t', sealed)
  {
    hide AlikeState;
  }

  /** Sealing has added frames from address `n` on only. */
  ghost predicate Adds(more: Sealed, sealed: Sealed, n: nat) {
    Includes(more, sealed) && forall a | a in more && a !in sealed :: a >= n
  }

  lemma AddsOn(more: Sealed, between: Sealed, sealed: Sealed, n: nat, m: nat)
    requires Adds(more, between, m) && Adds(between, sealed, n) && n <= m
    ensures Adds(more, sealed, n)
  {
  }

  lemma ExtendsIsLonger(frames: seq<Frame>, later: seq<Frame>)
    requires Extends(frames, later)
    ensures |frames| <= |later|
  {
  }

  /** The loop's two forms, step by step; the frames sealed are those of bodies that ran to their end. */
  lemma {:induction false} IterationsAlike(h: Host, p: Node, fin: Node, body: seq<Node>, env: Env, s: State, t: State,
                                           k: nat, sealed: Sealed)
    returns (more: Sealed)
    requires Separate(fin, body) && Ahead(env, s, t, sealed)
    ensures AlikeResult(Iterate(h, p, fin, body, env, s, k), IterateOutside(h, p, fin, body, env, t, k), more)
    ensures Adds(more, sealed, |s.frames|)
    decreases k, 1
  {
    hide Eval, AlikeState, AlikeEnv, Truthy, RunBody, Separate, SameHead, Extends, Free, Declares;
    more := sealed;
    if k > 0 {
      AheadFits(Free(p), env, s, t, sealed);
      var r, q := AlikePart(h, p, env, env, s, t, k - 1, sealed, Free(p), true);
      if r.Ok? {
        AlikePrimitives(r.value, q.value, r.value, q.value, r.st.frames, sealed);
        AheadLater(env, s, t, r.st, q.st, sealed);
        if Truthy(r.value) {
          more := BodyAlike(h, p, fin, body, env, r.st, q.st, k - 1, sealed);
          ExtendsIsLonger(s.frames, r.st.frames);
        } else {
          TrueAlike(r.st.frames, sealed);
        }
      }
    }
  }

  lemma TrueAlike(frames: seq<Frame>, sealed: Sealed)
    ensures AlikeValue(True, True, frames, sealed) && Includes(sealed, sealed)
  {
  }

  /** An iteration after its test, and those that follow. */
  function AfterTest(h: Host, p: Node, fin: Node, body: seq<Node>, env: Env, st: State, k: nat): Result<Value> {
    var (env2, st2) := Extend(map[], env, st);
    var (returned, st3) :- RunBody(h, body, env2, st2, k);
    if returned then Iterate(h, p, fin, body, env, st3, k)
    else
      var (_, st4) :- Eval(h, fin, env2, st3, k);
      Iterate(h, p, fin, body, env, st4, k)
  }

  function AfterTestOutside(h: Host, p: Node, fin: Node, body: seq<Node>, env: Env, st: State, k: nat): Result<Value> {
    var (env2, st2) := Extend(map[], env, st);
    var (returned, st3) :- RunBody(h, body, env2, st2, k);
    if returned then IterateOutside(h, p, fin, body, env, st3, k)
    else
      var (_, st4) :- Eval(h, fin, env, st3, k);
      IterateOutside(h, p, fin, body, env, st4, k)
  }

  lemma {:induction false} BodyAlike(h: Host, p: Node, fin: Node, body: seq<Node>, env: Env, s: State, t: State, k: nat,
                                     sealed: Sealed)
    returns (more: Sealed)
    requires Separate(fin, body) && Ahead(env, s, t, sealed)
    ensures AlikeResult(AfterTest(h, p, fin, body, env, s, k), AfterTestOutside(h, p, fin, body, env, t, k), more)
    ensures Adds(more, sealed, |s.frames|)
    decreases k, 2
  {
    hide Eval, AlikeState, AlikeEnv, RunBody, Separate, SameHead, Iterate, IterateOutside, Extends;
    more := sealed;
    var (env2, s2) := Extend(map[], env, s);
    var t2 := Extend(map[], env, t).1;
    var r, q := RunBody(h, body, env2, s2, k), RunBody(h, body, env2, t2, k);
    BodyRunsAlike(h, body, env, s, t, k, sealed);
    if r.Ok? && r.value {
      more := IterationsAlike(h, p, fin, body, env, r.st, q.st, k, sealed);
    } else if r.Ok? {
      more := sealed[|s.frames| := r.st.frames[|s.frames|].Keys];
      FinaliserAlike(h, fin, body, env, s, t, r.st, q.st, k, sealed, more);
      var r2, q2 := Eval(h, fin, env2, r.st, k), Eval(h, fin, env, q.st, k);
      if r2.Ok? {
        var first := more;
        more := IterationsAlike(h, p, fin, body, env, r2.st, q2.st, k, first);
        AddsOn(more, first, sealed, |s.frames|, |r2.st.frames|);
      }
    }
  }

  /** The body runs in the same new frame in both, and binds there what it declares. */
  lemma BodyRunsAlike(h: Host, body: seq<Node>, env: Env, s: State, t: State, k: nat, sealed: Sealed)
    requires Ahead(env, s, t, sealed)
    ensures var (env2, s2) := Extend(map[], env, s);
            var t2 := Extend(map[], env, t).1;
            var r, q := RunBody(h, body, env2, s2, k), RunBody(h, body, env2, t2, k);
            && t2 == Extend(map[], env, t).1 && Extend(map[], env, t).0 == env2
            && AlikeState(r.st, q.st, sealed)
            && (if r.Ok? then q.Ok? && r.value == q.value else q.Fail? && q.error == r.error)
            && Ahead(env, r.st, q.st, sealed)
            && |s.frames| < |r.st.frames| && |s.frames| !in sealed && r.st.frames[|s.frames|].Keys <= DeclaresAll(body)
  {
    hide AlikeEnv, AlikeFrame, EvalSequence;
    var f: Frame := map[];
    var (env2, s2) := Extend(f, env, s);
    var t2 := Extend(f, env, t).1;
    AlikeItself(env, FreeIn(body) - f.Keys, s.frames, sealed);
    assert AlikeFrame(f, f, s.frames, sealed) by { EmptyAlike(s.frames, sealed); }
    FitBehind(FreeIn(body), env, env, f, f, s, t, sealed);
    if body != [] {
      FitLess(FreeIn(body), true, FreeIn(body), DeclaresAll(body) != {}, env2, env2, s2, t2, sealed);
      AlikeSequence(h, body, env2, env2, s2, t2, k, sealed);
      var r, q := EvalSequence(h, body, env2, s2, k), EvalSequence(h, body, env2, t2, k);
      if r.Ok? { IsTrueAlike(r.value, q.value, r.st.frames, sealed); }
      SequenceGrows(h, body, env2, s2, k, DeclaresAll(body));
    }
  }

  lemma EmptyAlike(frames: seq<Frame>, sealed: Sealed)
    ensures AlikeFrame(map[], map[], frames, sealed)
  {
  }

  /** The finaliser in the frame of the body and outside of it. */
  lemma FinaliserAlike(h: Host, fin: Node, body: seq<Node>, env: Env, s: State, t: State, s3: State, t3: State, k: nat,
                       sealed: Sealed, more: Sealed)
    requires Separate(fin, body) && Ahead(env, s, t, sealed) && Ahead(env, s3, t3, sealed)
    requires |s.frames| < |s3.frames| && |s.frames| !in sealed && s3.frames[|s.frames|].Keys <= DeclaresAll(body)
    requires more == sealed[|s.frames| := s3.frames[|s.frames|].Keys]
    ensures var r, q := Eval(h, fin, [|s.frames|] + env, s3, k), Eval(h, fin, env, t3, k);
            AlikeResult(r, q, more) && Ahead(env, r.st, q.st, more)
    ensures Adds(more, sealed, |s.frames|) && |s.frames| <= |Eval(h, fin, [|s.frames|] + env, s3, k).st.frames|
  {
    hide Eval, AlikeState, Free;
    var f := |s.frames|;
    Seal(s3, t3, sealed, f);
    AlikeItself(env, Free(fin), s3.frames, more);
    assert ([f] + env)[1..] == env;
    assert AlikeEnv([f] + env, env, Free(fin), s3.frames, more);
    hide AlikeEnv;
    var r, q := AlikePart(h, fin, [f] + env, env, s3, t3, k, more, Free(fin), false);
    AheadLater(env, s3, t3, r.st, q.st, more);
    ExtendsIsLonger(s3.frames, r.st.frames);
  }

  /** For any loop whose body declares no name free in the finaliser, both forms answer alike: the same
      value or error, and stores that differ at most in what closures made by the finaliser have captured,
      one more frame that binds none of their free names. */
  lemma OutsideIsAlike(h: Host, init: Node, p: Node, fin: Node, body: seq<Node>, env: Env, st: State, k: nat)
    returns (sealed: Sealed)
    requires Separate(fin, body)
    ensures AlikeResult(DirectFor(h, init, p, fin, body, env, st, k),
                        DirectForOutside(h, init, p, fin, body, env, st, k), sealed)
    ensures forall a | a in sealed :: a >= |st.frames|
  {
    hide Eval, AlikeState, AlikeEnv, Iterate, IterateOutside, Separate, Extends;
    sealed := map[];
    var (env1, st1) := Extend(map[], env, st);
    EvalExtends(h, init, env1, st1, k);
    var r := Eval(h, init, env1, st1, k);
    StateAlikeItself(r.st);
    if r.Ok? {
      StillAhead(env, st, r.st);
      ExtendsIsLonger(st1.frames, r.st.frames);
      sealed := IterationsAlike(h, p, fin, body, env1, r.st, r.st, k, map[]);
    }
  }

  lemma StillAhead(env: Env, st: State, st': State)
    requires AlikeState(st', st', map[]) && Extends(Extend(map[], env, st).1.frames, st'.frames)
    ensures Ahead(Extend(map[], env, st).0, st', st', map[])
  {
    hide AlikeState;
  }

  lemma {:induction false} ExpressionDeclaresNothing(n: Node)
    requires IsExpr(n)
    ensures Declares(n) == {}
  {
    match n
    case CondExpr(p, c, a) =>
      ExpressionDeclaresNothing(p);
      ExpressionDeclaresNothing(c);
      ExpressionDeclaresNothing(a);
    case BoolOp(_, l, r) => ExpressionDeclaresNothing(l); ExpressionDeclaresNothing(r);
    case Application(f, es) => ExpressionDeclaresNothing(f); ExpressionsDeclareNothing(es);
    case _ =>
  }

  lemma {:induction false} ExpressionsDeclareNothing(es: seq<Node>)
    requires forall i | 0 <= i < |es| :: IsExpr(es[i])
    ensures DeclaresAll(es) == {}
  {
    if es != [] {
      ExpressionDeclaresNothing(es[0]);
      ExpressionsDeclareNothing(es[1..]);
    }
  }

  /** So the loop as it is rewritten and evaluated answers like the loop with its finaliser outside, in both
      directions, given enough fuel. */
  lemma FinaliserMayRunOutside(h: Host, init: Node, p: Node, fin: Node, body: seq<Node>, env: Env, st: State, k: nat)
    returns (sealed: Sealed)
    requires Proper(init, p, fin, body, env, st) && DeclaresAll(body) !! Free(fin)
    ensures var outside := DirectForOutside(h, init, p, fin, body, env, st, k);
            && (!Exhausted(Eval(h, For(init, p, fin, body), env, st, k)) ==>
                  AlikeResult(Eval(h, For(init, p, fin, body), env, st, k), outside, sealed))
            && (!Exhausted(outside) ==>
                  AlikeResult(Eval(h, For(init, p, fin, body), env, st, k + |body| + 10), outside, sealed))
            && forall a | a in sealed :: a >= |st.frames|
  {
    hide Eval, AlikeState, AlikeEnv, DirectFor, DirectForOutside, Confinement.GoodStore, AlikeValue, Free;
    assert IsStmt(fin) && (fin.Assignment? || fin.Unsupported?);
    if fin.Assignment? { ExpressionDeclaresNothing(fin.value); }
    sealed := OutsideIsAlike(h, init, p, fin, body, env, st, k);
    if !Exhausted(Eval(h, For(init, p, fin, body), env, st, k)) { ForIsDirect(h, init, p, fin, body, env, st, k); }
    if !Exhausted(DirectFor(h, init, p, fin, body, env, st, k)) { DirectIsFor(h, init, p, fin, body, env, st, k); }
  }

  // ----- A loop that can tell -----

  /** `for (let y = true; y; y = x) { const x = false; }` */
  const INIT := VarDecl("y", Lit(Bool(true)))
  const TEST := Name("y")
  const STEP := Assignment("y", Name("x"))
  const BODY := [ConstDecl("x", Lit(Bool(false)))]

  /** The store of that loop before its first test, and after its body with `y` as given. */
  function AtTest(st: State): State {
    st.(frames := st.frames + [map["y" := Denoted(True, true)]])
  }

  function AfterBody(st: State, y: Value): State {
    st.(frames := st.frames + [map["y" := Denoted(y, true)]] + [map["x" := Denoted(False, false)]])
  }

  lemma Starts(h: Host, env: Env, st: State, k: nat)
    requires k >= 2
    ensures var (env1, st1) := Extend(map[], env, st);
            Eval(h, INIT, env1, st1, k) == Ok(Undefined, AtTest(st))
  {
    var (env1, st1) := Extend(map[], env, st);
    assert Eval(h, Lit(Bool(true)), env1, st1, k - 1) == Ok(True, st1);
    assert Declare(st1.frames, |st.frames|, "y", True, true) == AtTest(st).frames;
  }

  lemma Tests(h: Host, env: Env, st: State, st1: State, y: Value, k: nat)
    requires k >= 1 && (st1 == AfterBody(st, y) || (st1 == AtTest(st) && y == True))
    ensures Eval(h, TEST, [|st.frames|] + env, st1, k) == Ok(y, st1)
  {
    assert FrameAt(st1.frames, |st.frames|) == map["y" := Denoted(y, true)];
  }

  lemma RunsBody(h: Host, env: Env, st: State, k: nat)
    requires k >= 3
    ensures var (env2, st2) := Extend(map[], [|st.frames|] + env, AtTest(st));
            env2[0] == |st.frames| + 1 && RunBody(h, BODY, env2, st2, k) == Ok(false, AfterBody(st, True))
  {
    var (env2, st2) := Extend(map[], [|st.frames|] + env, AtTest(st));
    assert Eval(h, Lit(Bool(false)), env2, st2, k - 2) == Ok(False, st2);
    assert st2.frames[env2[0]]["x" := Denoted(False, false)] == map["x" := Denoted(False, false)];
    assert Declare(st2.frames, env2[0], "x", False, false) == AfterBody(st, True).frames;
    assert Eval(h, BODY[0], env2, st2, k - 1) == Ok(Undefined, AfterBody(st, True));
  }

  lemma StepsInside(h: Host, env: Env, st: State, k: nat)
    requires k >= 2
    ensures Eval(h, STEP, [|st.frames| + 1] + ([|st.frames|] + env), AfterBody(st, True), k) ==
            Ok(False, AfterBody(st, False))
  {
    var env1 := [|st.frames|] + env;
    var env2 := [|st.frames| + 1] + env1;
    var st3 := AfterBody(st, True);
    var y, x := map["y" := Denoted(True, true)], map["x" := Denoted(False, false)];
    assert FrameAt(st3.frames, env2[0]) == x;
    assert env2[1..] == env1 && FrameAt(st3.frames, env1[0]) == y;
    assert Eval(h, Name("x"), env2, st3, k - 1) == Ok(False, st3);
    assert Resolve(st3.frames, env2, "y") == Resolve(st3.frames, env1, "y") == Some(|st.frames|);
    assert y["y" := Denoted(False, true)] == map["y" := Denoted(False, true)];
    assert Assign(st3.frames, env2, "y", False).value == AfterBody(st, False).frames;
  }

  /** Frames beyond those of an environment do not matter to it. */
  lemma {:induction false} StillUnbound(frames: seq<Frame>, more: seq<Frame>, env: Env, x: string)
    requires Resolve(frames, env, x) == None && forall a | a in env :: a < |frames|
    ensures Resolve(frames + more, env, x) == None
  {
    if env != [] {
      assert env[0] in env && forall a | a in env[1..] :: a in env;
      StillUnbound(frames, more, env[1..], x);
    }
  }

  lemma StepsOutside(h: Host, env: Env, st: State, k: nat)
    requires k >= 2 && Resolve(st.frames, env, "x") == None && forall a | a in env :: a < |st.frames|
    ensures Eval(h, STEP, [|st.frames|] + env, AfterBody(st, True), k) == Fail(UnboundName("x"), AfterBody(st, True))
  {
    var more := [map["y" := Denoted(True, true)]] + [map["x" := Denoted(False, false)]];
    StillUnbound(st.frames, more, env, "x");
    var st3 := AfterBody(st, True);
    assert st3.frames == st.frames + more;
    assert ([|st.frames|] + env)[1..] == env && FrameAt(st3.frames, |st.frames|) == map["y" := Denoted(True, true)];
    assert Eval(h, Name("x"), [|st.frames|] + env, st3, k - 1) == Fail(UnboundName("x"), st3);
  }

  /** The body declares the name that the finaliser reads, and nothing else does: the loop as it is ends at
      its second test, the one with the finaliser outside fails. */
  lemma FinaliserSeesDeclarations(h: Host, env: Env, st: State, k: nat)
    requires Resolve(st.frames, env, "x") == None && (forall a | a in env :: a < |st.frames|) && k >= 5
    ensures DirectFor(h, INIT, TEST, STEP, BODY, env, st, k) == Ok(True, AfterBody(st, False))
    ensures DirectForOutside(h, INIT, TEST, STEP, BODY, env, st, k) == Fail(UnboundName("x"), AfterBody(st, True))
  {
    hide Eval, RunBody;
    Starts(h, env, st, k);
    Tests(h, env, st, AtTest(st), True, k - 1);
    RunsBody(h, env, st, k - 1);
    StepsInside(h, env, st, k - 1);
    Tests(h, env, st, AfterBody(st, False), False, k - 2);
    StepsOutside(h, env, st, k - 1);
    var (env1, st1) := Extend(map[], env, st);
    assert env1 == [|st.frames|] + env;
    assert Iterate(h, TEST, STEP, BODY, env1, AfterBody(st, False), k - 1) == Ok(True, AfterBody(st, False));
    var (env2, st2) := Extend(map[], env1, AtTest(st));
    assert env2 == [|st.frames| + 1] + ([|st.frames|] + env);
    assert Iterate(h, TEST, STEP, BODY, env1, AtTest(st), k) == Ok(True, AfterBody(st, False));
  }
}

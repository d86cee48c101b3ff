/** A return skips every later statement up to the enclosing call or loop body: statements after one
    that always returns can be anything at all without a session noticing.
 */
module DeadCode {
  import opened Options
  import opened Syntax
  import opened Environment
  import opened Evaluator

  /** Statements that, when they complete, complete with a return value. */
  predicate AlwaysReturns(n: Node) {
    match n
    case Return(_) => true
    case CondStmt(_, c, a) => AlwaysReturns(c) && AlwaysReturns(a)
    case Block(b) => AlwaysReturns(b)
    case Sequence(ss) => exists i | 0 <= i < |ss| :: AlwaysReturns(ss[i])
    case _ => false
  }

  lemma {:induction false} AlwaysReturnsYieldsReturn(h: Host, n: Node, env: Env, st: State, k: nat)
    requires AlwaysReturns(n) && Eval(h, n, env, st, k).Ok?
    ensures Eval(h, n, env, st, k).value.ReturnValue?
    decreases k
  {
    match n
    case Return(_) =>
    case CondStmt(p, c, a) =>
      var r := Eval(h, p, env, st, k - 1);
      AlwaysReturnsYieldsReturn(h, if r.value == True then c else a, env, r.st, k - 1);
    case Block(b) =>
      var (env1, st1) := Extend(map[], env, st);
      AlwaysReturnsYieldsReturn(h, b, env1, st1, k - 1);
    case Sequence(ss) => ReturningSequence(h, ss, env, st, k - 1);
  }

  lemma {:induction false} ReturningSequence(h: Host, ss: seq<Node>, env: Env, st: State, k: nat)
    requires (exists i | 0 <= i < |ss| :: AlwaysReturns(ss[i])) && EvalSequence(h, ss, env, st, k).Ok?
    ensures EvalSequence(h, ss, env, st, k).value.ReturnValue?
    decreases k
  {
    var r := Eval(h, ss[0], env, st, k - 1);
    if AlwaysReturns(ss[0]) {
      AlwaysReturnsYieldsReturn(h, ss[0], env, st, k - 1);
    } else if !r.value.ReturnValue? {
      var i :| 0 <= i < |ss| && AlwaysReturns(ss[i]);
      assert ss[i] == ss[1..][i - 1];
      ReturningSequence(h, ss[1..], env, r.st, k - 1);
    }
  }

  // ----- Programs, values and stores that differ in dead statements only -----

  /** `m` is `n` with the statements after always-returning ones replaced by arbitrary others. */
  ghost predicate Same(n: Node, m: Node)
    decreases n, 0
  {
    match n
    case ConstDecl(x, e) => m.ConstDecl? && m.name == x && Same(e, m.value)
    case VarDecl(x, e) => m.VarDecl? && m.name == x && Same(e, m.value)
    case Assignment(x, e) => m.Assignment? && m.name == x && Same(e, m.value)
    case CondStmt(p, c, a) => m.CondStmt? && Same(p, m.predicate_) && Same(c, m.consequent) && Same(a, m.alternative)
    case CondExpr(p, c, a) => m.CondExpr? && Same(p, m.predicate_) && Same(c, m.consequent) && Same(a, m.alternative)
    case BoolOp(op, l, r) => m.BoolOp? && m.op == op && Same(l, m.left) && Same(r, m.right)
    case FunDef(ps, b) => m.FunDef? && m.parameters == ps && Same(b, m.body)
    case Sequence(ss) => m.Sequence? && SameLive(ss, m.stmts)
    case Application(f, es) => m.Application? && Same(f, m.operator) && SameAll(es, m.operands)
    case Return(e) => m.Return? && Same(e, m.expr)
    case Block(b) => m.Block? && Same(b, m.body)
    case While(p, b) => m.While? && Same(p, m.predicate_) && Same(b, m.statements)
    case For(i, p, f, b) => m.For? && Same(i, m.init) && Same(p, m.predicate_) && Same(f, m.finaliser) &&
        SameLive(b, m.loopBody)
    case _ => n == m
  }

  ghost predicate SameLive(ss: seq<Node>, ts: seq<Node>)
    decreases ss, 0
  {
    if ss == [] || ts == [] then ss == ts
    else Same(ss[0], ts[0]) && (AlwaysReturns(ss[0]) || SameLive(ss[1..], ts[1..]))
  }

  ghost predicate SameAll(es: seq<Node>, fs: seq<Node>)
    decreases es, 0
  {
    |es| == |fs| && forall i | 0 <= i < |es| :: Same(es[i], fs[i])
  }

  ghost predicate SameValue(v: Value, w: Value) {
    match v
    case Pair(i, h, t) => w.Pair? && w.id == i && SameValue(h, w.head) && SameValue(t, w.tail)
    case Closure(i, ps, b, env) => w.Closure? && w.id == i && w.parameters == ps && w.env == env && Same(b, w.body)
    case ReturnValue(c) => w.ReturnValue? && SameValue(c, w.content)
    case _ => v == w
  }

  ghost predicate SameValues(vs: seq<Value>, ws: seq<Value>) {
    |vs| == |ws| && forall i | 0 <= i < |vs| :: SameValue(vs[i], ws[i])
  }

  ghost predicate SameFrame(f: Frame, g: Frame) {
    f.Keys == g.Keys && forall x | x in f :: SameValue(f[x].value, g[x].value) && f[x].mutable == g[x].mutable
  }

  ghost predicate SameState(s: State, t: State) {
    s.next == t.next && |s.frames| == |t.frames| &&
    forall a | 0 <= a < |s.frames| :: SameFrame(s.frames[a], t.frames[a])
  }

  ghost predicate SameResult(r: Result<Value>, q: Result<Value>) {
    SameState(r.st, q.st) && if r.Ok? then q.Ok? && SameValue(r.value, q.value) else q.Fail? && q.error == r.error
  }

  // ----- Store and builtins cannot tell the difference -----

  lemma {:induction false} SameResolve(s: State, t: State, env: Env, x: string)
    requires SameState(s, t)
    ensures Resolve(s.frames, env, x) == Resolve(t.frames, env, x)
  {
    if env != [] {
      assert FrameAt(s.frames, env[0]).Keys == FrameAt(t.frames, env[0]).Keys;
      SameResolve(s, t, env[1..], x);
    }
  }

  lemma SameBind(s: State, t: State, a: nat, x: string, v: Value, w: Value, m: bool)
    requires SameState(s, t) && a < |s.frames| && SameValue(v, w)
    ensures SameState(s.(frames := s.frames[a := s.frames[a][x := Denoted(v, m)]]),
                      t.(frames := t.frames[a := t.frames[a][x := Denoted(w, m)]]))
  {
    assert SameFrame(s.frames[a], t.frames[a]);
    hide SameValue;
    assert SameFrame(s.frames[a][x := Denoted(v, m)], t.frames[a][x := Denoted(w, m)]);
  }

  lemma SameExtend(f: Frame, g: Frame, env: Env, s: State, t: State)
    requires SameState(s, t) && SameFrame(f, g)
    ensures Extend(f, env, s).0 == Extend(g, env, t).0 && SameState(Extend(f, env, s).1, Extend(g, env, t).1)
  {
  }

  lemma {:induction false} SameMakeFrame(ps: seq<string>, vs: seq<Value>, ws: seq<Value>)
    requires |ps| == |vs| && SameValues(vs, ws)
    ensures SameFrame(MakeFrame(ps, vs), MakeFrame(ps, ws))
  {
    hide SameValue;
    if ps != [] { SameMakeFrame(ps[..|ps| - 1], vs[..|ps| - 1], ws[..|ps| - 1]); }
  }

  lemma {:induction false} SameView(v: Value, w: Value)
    requires SameValue(v, w)
    ensures ViewOf(v) == ViewOf(w)
    decreases v
  {
    if v.Pair? { SameView(v.head, w.head); SameView(v.tail, w.tail); }
  }

  lemma {:induction false} SameMakeList(vs: seq<Value>, ws: seq<Value>, next: nat)
    requires SameValues(vs, ws)
    ensures MakeList(vs, next).1 == MakeList(ws, next).1 && SameValue(MakeList(vs, next).0, MakeList(ws, next).0)
  {
    if vs != [] { SameMakeList(vs[1..], ws[1..], next); }
  }

  lemma SameBuiltin(h: Host, f: string, vs: seq<Value>, ws: seq<Value>, s: State, t: State)
    requires SameState(s, t) && SameValues(vs, ws)
    ensures SameResult(ApplyBuiltin(h, f, vs, s), ApplyBuiltin(h, f, ws, t))
  {
    assert SameValue(Arg(vs, 0), Arg(ws, 0)) && SameValue(Arg(vs, 1), Arg(ws, 1));
    SameMakeList(vs, ws, s.next);
    SameView(Arg(vs, 0), Arg(ws, 0));
    SameView(Arg(vs, 1), Arg(ws, 1));
    hide SameFrame;
    SamePrimitives(Arg(vs, 0), Arg(ws, 0), Arg(vs, 1), Arg(ws, 1));
  }

  lemma SamePrimitives(v: Value, w: Value, v': Value, w': Value)
    requires SameValue(v, w) && SameValue(v', w')
    ensures Truthy(v) == Truthy(w) && StrictEquals(v, v') == StrictEquals(w, w')
  {
  }

  // ----- Evaluation -----

  /** Statements up to the first always-returning one decide what the rewritten loop body does. */
  lemma {:induction false} SameAppended(ss: seq<Node>, ts: seq<Node>, f: Node, g: Node)
    requires SameLive(ss, ts) && Same(f, g)
    ensures SameLive(ss + [f], ts + [g])
  {
    if ss == [] {
      assert ss + [f] == [f] && ts + [g] == [g];
    } else {
      assert (ss + [f])[1..] == ss[1..] + [f] && (ts + [g])[1..] == ts[1..] + [g];
      if !AlwaysReturns(ss[0]) { SameAppended(ss[1..], ts[1..], f, g); }
    }
  }

  lemma SameForBlock(n: Node, m: Node)
    requires n.For? && Same(n, m)
    ensures Same(ForBlock(n.init, n.predicate_, n.finaliser, n.loopBody),
                 ForBlock(m.init, m.predicate_, m.finaliser, m.loopBody))
  {
    SameAppended(n.loopBody, m.loopBody, n.finaliser, m.finaliser);
    var w := While(n.predicate_, Block(Sequence(n.loopBody + [n.finaliser])));
    var w' := While(m.predicate_, Block(Sequence(m.loopBody + [m.finaliser])));
    assert Same(Block(w.statements.body), Block(w'.statements.body));
    assert Same(w, w');
    assert [n.init, w][1..] == [w] && [m.init, w'][1..] == [w'];
    assert SameLive([w], [w']);
    assert SameLive([n.init, w], [m.init, w']);
  }

  /** Dead statements do not matter: from stores that agree up to dead statements, programs that do
      give the same answer or error at every fuel, and leave such stores behind. */
  lemma {:induction false} SameEval(h: Host, n: Node, m: Node, env: Env, s: State, t: State, k: nat)
    requires Same(n, m) && SameState(s, t)
    ensures SameResult(Eval(h, n, env, s, k), Eval(h, m, env, t, k))
    decreases k, 1
  {
    hide SameState, EvalSequence, ListOfValues, Apply, EvalWhile, EvalDeclaration, EvalConditional, EvalBoolean,
         EvalApplication, EvalAssignment;
    if k > 0 {
      match n
      case Name(x) => SameName(x, env, s, t);
      case ConstDecl(x, e) => SameDeclaration(h, x, e, m.value, false, env, s, t, k);
      case VarDecl(x, e) => SameDeclaration(h, x, e, m.value, true, env, s, t, k);
      case Assignment(x, e) => SameAssignment(h, x, e, m.value, env, s, t, k);
      case CondStmt(p, c, a) => SameConditional(h, n, m, env, s, t, k);
      case CondExpr(p, c, a) => SameConditional(h, n, m, env, s, t, k);
      case BoolOp(op, l, r) => SameBoolean(h, op, l, r, m.left, m.right, env, s, t, k);
      case Sequence(ss) => SameSequence(h, ss, m.stmts, env, s, t, k - 1);
      case Application(f, es) => SameApplication(h, n, m, env, s, t, k);
      case While(p, b) => SameWhile(h, n, m, env, s, t, k - 1);
      case _ => SameSimple(h, n, m, env, s, t, k);
    }
  }

  lemma {:induction false} SameSimple(h: Host, n: Node, m: Node, env: Env, s: State, t: State, k: nat)
    requires k > 0 && Same(n, m) && SameState(s, t)
    requires n.Lit? || n.EmptyListExpr? || n.FunDef? || n.Return? || n.Block? || n.For? || n.Unsupported?
    ensures SameResult(Eval(h, n, env, s, k), Eval(h, m, env, t, k))
    decreases k, 0, 1
  {
    hide EvalSequence, ListOfValues, Apply, EvalWhile, EvalDeclaration, EvalConditional, EvalBoolean, EvalApplication,
         EvalAssignment;
    match n
    case Return(e) => SameEval(h, e, m.expr, env, s, t, k - 1);
    case Block(b) => SameBlock(h, b, m.body, env, s, t, k);
    case For(i, p, f, b) =>
      SameForBlock(n, m);
      SameEval(h, ForBlock(i, p, f, b), ForBlock(m.init, m.predicate_, m.finaliser, m.loopBody), env, s, t, k - 1);
    case _ =>
  }

  lemma {:induction false} SameBlock(h: Host, b: Node, b': Node, env: Env, s: State, t: State, k: nat)
    requires k > 0 && Same(b, b') && SameState(s, t)
    ensures SameResult(Eval(h, Block(b), env, s, k), Eval(h, Block(b'), env, t, k))
    decreases k, 0, 0
  {
    SameExtend(map[], map[], env, s, t);
    hide Same, SameState;
    SameEval(h, b, b', Extend(map[], env, s).0, Extend(map[], env, s).1, Extend(map[], env, t).1, k - 1);
  }

  lemma SameName(x: string, env: Env, s: State, t: State)
    requires SameState(s, t)
    ensures SameResult(EvalName(x, env, s), EvalName(x, env, t))
  {
    SameResolve(s, t, env, x);
    var a := Resolve(s.frames, env, x);
    if a.Some? { assert SameFrame(s.frames[a.value], t.frames[a.value]); }
  }

  lemma {:induction false} SameDeclaration(h: Host, x: string, e: Node, f: Node, m: bool, env: Env, s: State, t: State,
                                           k: nat)
    requires k > 0 && Same(e, f) && SameState(s, t)
    ensures SameResult(EvalDeclaration(h, x, e, m, env, s, k), EvalDeclaration(h, x, f, m, env, t, k))
    decreases k, 0
  {
    hide Eval, Same;
    SameEval(h, e, f, env, s, t, k - 1);
    var r, q := Eval(h, e, env, s, k - 1), Eval(h, f, env, t, k - 1);
    if r.Ok? && env != [] && env[0] < |r.st.frames| { SameBind(r.st, q.st, env[0], x, r.value, q.value, m); }
  }

  lemma {:induction false} SameAssignment(h: Host, x: string, e: Node, f: Node, env: Env, s: State, t: State, k: nat)
    requires k > 0 && Same(e, f) && SameState(s, t)
    ensures SameResult(EvalAssignment(h, x, e, env, s, k), EvalAssignment(h, x, f, env, t, k))
    decreases k, 0
  {
    hide Eval, Same, SameValue;
    SameEval(h, e, f, env, s, t, k - 1);
    var r, q := Eval(h, e, env, s, k - 1), Eval(h, f, env, t, k - 1);
    SameResolve(r.st, q.st, env, x);
    var a := Resolve(r.st.frames, env, x);
    if r.Ok? && a.Some? {
      assert SameFrame(r.st.frames[a.value], q.st.frames[a.value]);
      SameBind(r.st, q.st, a.value, x, r.value, q.value, r.st.frames[a.value][x].mutable);
    }
  }

  lemma {:induction false} SameConditional(h: Host, n: Node, m: Node, env: Env, s: State, t: State, k: nat)
    requires k > 0 && (n.CondStmt? || n.CondExpr?) && (m.CondStmt? || m.CondExpr?) && SameState(s, t)
    requires Same(n.predicate_, m.predicate_) && Same(n.consequent, m.consequent) && Same(n.alternative, m.alternative)
    ensures SameResult(EvalConditional(h, n.predicate_, n.consequent, n.alternative, env, s, k),
                       EvalConditional(h, m.predicate_, m.consequent, m.alternative, env, t, k))
    decreases k, 0
  {
    hide SameState, Eval, Same;
    SameEval(h, n.predicate_, m.predicate_, env, s, t, k - 1);
    var r, q := Eval(h, n.predicate_, env, s, k - 1), Eval(h, m.predicate_, env, t, k - 1);
    if r.Ok? {
      SameEval(h, if r.value == True then n.consequent else n.alternative,
               if q.value == True then m.consequent else m.alternative, env, r.st, q.st, k - 1);
    }
  }

  lemma {:induction false} SameBoolean(h: Host, op: string, l: Node, r: Node, l': Node, r': Node, env: Env, s: State,
                                       t: State, k: nat)
    requires k > 0 && Same(l, l') && Same(r, r') && SameState(s, t)
    ensures SameResult(EvalBoolean(h, op, l, r, env, s, k), EvalBoolean(h, op, l', r', env, t, k))
    decreases k, 0
  {
    hide SameState, Eval, Same;
    SameEval(h, l, l', env, s, t, k - 1);
    var v, w := Eval(h, l, env, s, k - 1), Eval(h, l', env, t, k - 1);
    if v.Ok? { SameEval(h, r, r', env, v.st, w.st, k - 1); }
  }

  lemma {:induction false} SameApplication(h: Host, n: Node, m: Node, env: Env, s: State, t: State, k: nat)
    requires k > 0 && n.Application? && Same(n, m) && SameState(s, t)
    ensures SameResult(EvalApplication(h, n.operator, n.operands, env, s, k),
                       EvalApplication(h, m.operator, m.operands, env, t, k))
    decreases k, 0
  {
    hide SameState, Eval, ListOfValues, Apply, SameValue, SameValues;
    SameEval(h, n.operator, m.operator, env, s, t, k - 1);
    var r, q := Eval(h, n.operator, env, s, k - 1), Eval(h, m.operator, env, t, k - 1);
    if r.Ok? {
      SameOperands(h, n.operands, m.operands, env, r.st, q.st, k - 1);
      var vs, ws := ListOfValues(h, n.operands, env, r.st, k - 1), ListOfValues(h, m.operands, env, q.st, k - 1);
      if vs.Ok? { SameApply(h, r.value, q.value, vs.value, ws.value, vs.st, ws.st, k - 1); }
    }
  }

  lemma {:induction false} SameSequence(h: Host, ss: seq<Node>, ts: seq<Node>, env: Env, s: State, t: State, k: nat)
    requires SameLive(ss, ts) && SameState(s, t)
    ensures SameResult(EvalSequence(h, ss, env, s, k), EvalSequence(h, ts, env, t, k))
    decreases k, 0
  {
    hide SameState, Eval, Same;
    if k > 0 && ss != [] {
      SameEval(h, ss[0], ts[0], env, s, t, k - 1);
      var r, q := Eval(h, ss[0], env, s, k - 1), Eval(h, ts[0], env, t, k - 1);
      if AlwaysReturns(ss[0]) {
        if r.Ok? { AlwaysReturnsYieldsReturn(h, ss[0], env, s, k - 1); }
      } else if r.Ok? {
        SameSequence(h, ss[1..], ts[1..], env, r.st, q.st, k - 1);
      }
    }
  }

  lemma {:induction false} SameOperands(h: Host, es: seq<Node>, fs: seq<Node>, env: Env, s: State, t: State, k: nat)
    requires SameAll(es, fs) && SameState(s, t)
    ensures var r, q := ListOfValues(h, es, env, s, k), ListOfValues(h, fs, env, t, k);
            SameState(r.st, q.st) &&
            if r.Ok? then q.Ok? && SameValues(r.value, q.value) else q.Fail? && q.error == r.error
    decreases k, 0
  {
    hide SameState, Eval, Same, SameValue;
    if k > 0 && es != [] {
      SameEval(h, es[0], fs[0], env, s, t, k - 1);
      var r, q := Eval(h, es[0], env, s, k - 1), Eval(h, fs[0], env, t, k - 1);
      if r.Ok? { SameOperands(h, es[1..], fs[1..], env, r.st, q.st, k - 1); }
    }
  }

  lemma {:induction false} SameApply(h: Host, f: Value, g: Value, vs: seq<Value>, ws: seq<Value>, s: State, t: State,
                                     k: nat)
    requires SameValue(f, g) && SameValues(vs, ws) && SameState(s, t)
    ensures SameResult(Apply(h, f, vs, s, k), Apply(h, g, ws, t, k))
    decreases k, 0
  {
    hide SameState, Eval, Same, SameFrame;
    if k > 0 {
      match f
      case Builtin(name) => SameBuiltin(h, name, vs, ws, s, t);
      case Closure(_, ps, body, env) =>
        if |ps| == |vs| {
          SameMakeFrame(ps, vs, ws);
          SameExtend(MakeFrame(ps, vs), MakeFrame(ps, ws), env, s, t);
          var (env1, s1) := Extend(MakeFrame(ps, vs), env, s);
          SameEval(h, body, g.body, env1, s1, Extend(MakeFrame(ps, ws), env, t).1, k - 1);
        }
      case _ =>
    }
  }

  lemma {:induction false} SameWhile(h: Host, n: Node, m: Node, env: Env, s: State, t: State, k: nat)
    requires n.While? && Same(n, m) && SameState(s, t)
    ensures SameResult(EvalWhile(h, n.predicate_, n.statements, env, s, k),
                       EvalWhile(h, m.predicate_, m.statements, env, t, k))
    decreases k, 0
  {
    hide SameState, Eval, Truthy;
    if k > 0 {
      SameEval(h, n.predicate_, m.predicate_, env, s, t, k - 1);
      var r, q := Eval(h, n.predicate_, env, s, k - 1), Eval(h, m.predicate_, env, t, k - 1);
      if r.Ok? {
        SamePrimitives(r.value, q.value, r.value, q.value);
        SameEval(h, n.statements, m.statements, env, r.st, q.st, k - 1);
        var r2, q2 := Eval(h, n.statements, env, r.st, k - 1), Eval(h, m.statements, env, q.st, k - 1);
        if r2.Ok? { SameWhile(h, n, m, env, r2.st, q2.st, k - 1); }
      }
    }
  }

  /** The same for sessions, from any one starting store. */
  lemma {:induction false} SameSession(h: Host, ps: seq<(Node, nat)>, qs: seq<(Node, nat)>, s: State, t: State)
    requires |ps| == |qs| && forall i | 0 <= i < |ps| :: Same(ps[i].0, qs[i].0) && ps[i].1 == qs[i].1
    requires SameState(s, t)
    ensures SameState(Session(h, ps, s), Session(h, qs, t))
  {
    hide Eval, Same, SameState;
    if ps != [] {
      SameEval(h, ps[0].0, qs[0].0, GLOBAL, s, t, ps[0].1);
      SameSession(h, ps[1..], qs[1..], EvalToplevel(h, ps[0].0, s, ps[0].1).st,
                  EvalToplevel(h, qs[0].0, t, ps[0].1).st);
    }
  }
}

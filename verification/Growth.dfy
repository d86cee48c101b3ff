/** Which frames evaluation adds names to: those it makes, and the one a declaration stands in. */
module Growth {
  import opened Options
  import opened Syntax
  import opened Environment
  import opened Evaluator

  /** The names a node may declare in the frame it is evaluated in. */
  function Declares(n: Node): set<string> {
    match n
    case ConstDecl(x, e) => {x} + Declares(e)
    case VarDecl(x, e) => {x} + Declares(e)
    case Assignment(_, e) => Declares(e)
    case Return(e) => Declares(e)
    case CondStmt(p, c, a) => Declares(p) + Declares(c) + Declares(a)
    case CondExpr(p, c, a) => Declares(p) + Declares(c) + Declares(a)
    case BoolOp(_, l, r) => Declares(l) + Declares(r)
    case Sequence(ss) => DeclaresAll(ss)
    case Application(f, es) => Declares(f) + DeclaresAll(es)
    case While(p, b) => Declares(p) + Declares(b)
    case _ => {}
  }

  function DeclaresAll(ns: seq<Node>): set<string> {
    if ns == [] then {} else Declares(ns[0]) + DeclaresAll(ns[1..])
  }

  /** From `st` to `st'` no binding is lost, and old frames gain none, but the first of `env` may gain some
      of `names`. */
  ghost predicate Grows(st: State, st': State, env: Env, names: set<string>) {
    |st.frames| <= |st'.frames| &&
    forall a | 0 <= a < |st.frames| ::
      st.frames[a].Keys <= st'.frames[a].Keys <= st.frames[a].Keys + if env != [] && env[0] == a then names else {}
  }

  lemma GrowsNot(st: State, env: Env, names: set<string>)
    ensures Grows(st, st, env, names) && Grows(st, st.(next := st.next + 1), env, names)
  {
  }

  lemma GrowsMore(st: State, st': State, env: Env, names: set<string>, more: set<string>)
    requires Grows(st, st', env, names) && names <= more
    ensures Grows(st, st', env, more)
  {
  }

  lemma GrowsOn(st: State, st1: State, st2: State, env: Env, names: set<string>)
    requires Grows(st, st1, env, names) && Grows(st1, st2, env, names)
    ensures Grows(st, st2, env, names)
  {
  }

  /** What happens behind a new frame is no concern of the old ones. */
  lemma GrowsBehind(f: Frame, outer: Env, st: State, st': State, env: Env, names: set<string>, more: set<string>)
    requires var (env1, st1) := Extend(f, outer, st); Grows(st1, st', env1, names)
    ensures Grows(st, st', env, more)
  {
  }

  lemma DeclareGrows(st: State, env: Env, x: string, v: Value, m: bool, names: set<string>)
    requires env != [] && x in names
    ensures Grows(st, st.(frames := Declare(st.frames, env[0], x, v, m)), env, names)
  {
  }

  lemma AssignGrows(st: State, env: Env, x: string, v: Value, env': Env, names: set<string>)
    requires Assign(st.frames, env, x, v).Some?
    ensures Grows(st, st.(frames := Assign(st.frames, env, x, v).value), env', names)
  {
  }

  lemma BuiltinGrows(h: Host, f: string, args: seq<Value>, st: State, env: Env, names: set<string>)
    ensures Grows(st, ApplyBuiltin(h, f, args, st).st, env, names)
  {
    assert ApplyBuiltin(h, f, args, st).st.frames == st.frames;
  }

  // ----- Evaluation -----

  lemma {:induction false} EvalGrows(h: Host, n: Node, env: Env, st: State, k: nat)
    ensures Grows(st, Eval(h, n, env, st, k).st, env, Declares(n))
    decreases k, 1
  {
    hide EvalSequence, ListOfValues, Apply, EvalWhile, EvalDeclaration, EvalConditional, EvalBoolean, EvalApplication;
    hide EvalAssignment, Grows;
    GrowsNot(st, env, Declares(n));
    if k > 0 {
      match n
      case ConstDecl(x, e) => DeclarationGrows(h, x, e, false, env, st, k, Declares(n));
      case VarDecl(x, e) => DeclarationGrows(h, x, e, true, env, st, k, Declares(n));
      case CondStmt(p, c, a) => ConditionalGrows(h, p, c, a, env, st, k, Declares(n));
      case CondExpr(p, c, a) => ConditionalGrows(h, p, c, a, env, st, k, Declares(n));
      case BoolOp(op, l, r) => BooleanGrows(h, op, l, r, env, st, k, Declares(n));
      case Application(f, es) => ApplicationGrows(h, f, es, env, st, k, Declares(n));
      case Assignment(x, e) => AssignmentGrows(h, x, e, env, st, k, Declares(n));
      case Sequence(ss) => SequenceGrows(h, ss, env, st, k - 1, Declares(n));
      case While(p, b) => WhileGrows(h, p, b, env, st, k - 1, Declares(n));
      case Return(e) => EvalGrows(h, e, env, st, k - 1);
      case Block(b) =>
        var (env1, st1) := Extend(map[], env, st);
        EvalGrows(h, b, env1, st1, k - 1);
        GrowsBehind(map[], env, st, Eval(h, b, env1, st1, k - 1).st, env, Declares(b), {});
      case For(i, p, f, b) =>
        assert Declares(ForBlock(i, p, f, b)) == {};
        EvalGrows(h, ForBlock(i, p, f, b), env, st, k - 1);
      case _ =>
    }
  }

  /** One node's evaluation, as part of another's that may declare more. */
  lemma {:induction false} PartGrows(h: Host, n: Node, env: Env, st: State, k: nat, names: set<string>)
      returns (r: Result<Value>)
    requires Declares(n) <= names
    ensures r == Eval(h, n, env, st, k) && Grows(st, r.st, env, names)
    decreases k, 2
  {
    hide Eval, Grows, Declares;
    EvalGrows(h, n, env, st, k);
    r := Eval(h, n, env, st, k);
    GrowsMore(st, r.st, env, Declares(n), names);
  }

  lemma {:induction false} DeclarationGrows(h: Host, x: string, e: Node, m: bool, env: Env, st: State, k: nat,
                                            names: set<string>)
    requires k > 0 && x in names && Declares(e) <= names
    ensures Grows(st, EvalDeclaration(h, x, e, m, env, st, k).st, env, names)
    decreases k, 0
  {
    hide Eval, Grows, Declares;
    var r := PartGrows(h, e, env, st, k - 1, names);
    if r.Ok? && env != [] {
      DeclareGrows(r.st, env, x, r.value, m, names);
      GrowsOn(st, r.st, r.st.(frames := Declare(r.st.frames, env[0], x, r.value, m)), env, names);
    }
  }

  lemma {:induction false} AssignmentGrows(h: Host, x: string, e: Node, env: Env, st: State, k: nat, names: set<string>)
    requires k > 0 && Declares(e) <= names
    ensures Grows(st, EvalAssignment(h, x, e, env, st, k).st, env, names)
    decreases k, 0
  {
    hide Eval, Grows, Declares, Assign;
    var r := PartGrows(h, e, env, st, k - 1, names);
    if r.Ok? && Assign(r.st.frames, env, x, r.value).Some? {
      AssignGrows(r.st, env, x, r.value, env, names);
      GrowsOn(st, r.st, r.st.(frames := Assign(r.st.frames, env, x, r.value).value), env, names);
    }
  }

  lemma {:induction false} ConditionalGrows(h: Host, p: Node, c: Node, a: Node, env: Env, st: State, k: nat,
                                            names: set<string>)
    requires k > 0 && Declares(p) <= names && Declares(c) <= names && Declares(a) <= names
    ensures Grows(st, EvalConditional(h, p, c, a, env, st, k).st, env, names)
    decreases k, 0
  {
    hide Eval, Grows, Declares;
    var r := PartGrows(h, p, env, st, k - 1, names);
    if r.Ok? {
      var q := PartGrows(h, if r.value == True then c else a, env, r.st, k - 1, names);
      GrowsOn(st, r.st, q.st, env, names);
    }
  }

  lemma {:induction false} BooleanGrows(h: Host, op: string, l: Node, r: Node, env: Env, st: State, k: nat,
                                        names: set<string>)
    requires k > 0 && Declares(l) <= names && Declares(r) <= names
    ensures Grows(st, EvalBoolean(h, op, l, r, env, st, k).st, env, names)
    decreases k, 0
  {
    hide Eval, Grows, Declares;
    var v := PartGrows(h, l, env, st, k - 1, names);
    if v.Ok? {
      var w := PartGrows(h, r, env, v.st, k - 1, names);
      GrowsOn(st, v.st, w.st, env, names);
    }
  }

  lemma {:induction false} ApplicationGrows(h: Host, f: Node, es: seq<Node>, env: Env, st: State, k: nat,
                                            names: set<string>)
    requires k > 0 && Declares(f) <= names && DeclaresAll(es) <= names
    ensures Grows(st, EvalApplication(h, f, es, env, st, k).st, env, names)
    decreases k, 0
  {
    hide Eval, ListOfValues, Apply, Grows, Declares, DeclaresAll;
    var r := PartGrows(h, f, env, st, k - 1, names);
    if r.Ok? {
      ValuesGrow(h, es, env, r.st, k - 1, names);
      var vs := ListOfValues(h, es, env, r.st, k - 1);
      GrowsOn(st, r.st, vs.st, env, names);
      if vs.Ok? {
        ApplyGrows(h, r.value, vs.value, vs.st, k - 1, env, names);
        GrowsOn(st, vs.st, Apply(h, r.value, vs.value, vs.st, k - 1).st, env, names);
      }
    }
  }

  lemma {:induction false} ValuesGrow(h: Host, es: seq<Node>, env: Env, st: State, k: nat, names: set<string>)
    requires DeclaresAll(es) <= names
    ensures Grows(st, ListOfValues(h, es, env, st, k).st, env, names)
    decreases k, 0
  {
    hide Eval, Grows, Declares;
    GrowsNot(st, env, names);
    if k > 0 && es != [] {
      var r := PartGrows(h, es[0], env, st, k - 1, names);
      if r.Ok? {
        ValuesGrow(h, es[1..], env, r.st, k - 1, names);
        GrowsOn(st, r.st, ListOfValues(h, es[1..], env, r.st, k - 1).st, env, names);
      }
    }
  }

  lemma {:induction false} SequenceGrows(h: Host, ss: seq<Node>, env: Env, st: State, k: nat, names: set<string>)
    requires DeclaresAll(ss) <= names
    ensures Grows(st, EvalSequence(h, ss, env, st, k).st, env, names)
    decreases k, 0
  {
    hide Eval, Grows, Declares;
    GrowsNot(st, env, names);
    if k > 0 && ss != [] {
      var r := PartGrows(h, ss[0], env, st, k - 1, names);
      if r.Ok? {
        SequenceGrows(h, ss[1..], env, r.st, k - 1, names);
        GrowsOn(st, r.st, EvalSequence(h, ss[1..], env, r.st, k - 1).st, env, names);
      }
    }
  }

  lemma {:induction false} ApplyGrows(h: Host, f: Value, args: seq<Value>, st: State, k: nat, env: Env,
                                      names: set<string>)
    ensures Grows(st, Apply(h, f, args, st, k).st, env, names)
    decreases k, 0
  {
    hide Eval, Grows, Declares, ApplyBuiltin;
    GrowsNot(st, env, names);
    if k > 0 {
      match f
      case Builtin(name) => BuiltinGrows(h, name, args, st, env, names);
      case Closure(_, ps, body, outer) =>
        if |ps| == |args| {
          var (env1, st1) := Extend(MakeFrame(ps, args), outer, st);
          EvalGrows(h, body, env1, st1, k - 1);
          GrowsBehind(MakeFrame(ps, args), outer, st, Eval(h, body, env1, st1, k - 1).st, env, Declares(body), names);
        }
      case _ =>
    }
  }

  lemma {:induction false} WhileGrows(h: Host, p: Node, b: Node, env: Env, st: State, k: nat, names: set<string>)
    requires Declares(p) <= names && Declares(b) <= names
    ensures Grows(st, EvalWhile(h, p, b, env, st, k).st, env, names)
    decreases k, 0
  {
    hide Eval, Grows, Declares, Truthy;
    GrowsNot(st, env, names);
    if k > 0 {
      var r := PartGrows(h, p, env, st, k - 1, names);
      if r.Ok? && Truthy(r.value) { LoopGrows(h, p, b, env, st, r.st, k - 1, names); }
    }
  }

  lemma {:induction false} LoopGrows(h: Host, p: Node, b: Node, env: Env, st: State, st1: State, k: nat,
                                     names: set<string>)
    requires Grows(st, st1, env, names) && Declares(p) <= names && Declares(b) <= names
    ensures var r := Eval(h, b, env, st1, k);
            Grows(st, if r.Ok? then EvalWhile(h, p, b, env, r.st, k).st else r.st, env, names)
    decreases k, 3
  {
    hide Eval, EvalWhile, Grows, Declares;
    var r := PartGrows(h, b, env, st1, k, names);
    GrowsOn(st, st1, r.st, env, names);
    if r.Ok? {
      WhileGrows(h, p, b, env, r.st, k, names);
      GrowsOn(st, r.st, EvalWhile(h, p, b, env, r.st, k).st, env, names);
    }
  }
}

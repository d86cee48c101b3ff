/** What programs mean, given by rules: a judgement holds if there is a proof of it.  No fuel and no order of
    evaluation but that of the premises. */
module Semantics {
  import opened Options
  import opened Syntax
  import opened Environment
  import opened Evaluator
  import ForLoop

  datatype Judgement =
    | Evaluates(node: Node, env: Env, st: State, result: Result<Value>)
    | RunsAll(nodes: seq<Node>, env: Env, st: State, result: Result<Value>)        // statements in a row
    | ListsAll(nodes: seq<Node>, env: Env, st: State, values: Result<seq<Value>>)  // operands from left to right
    | Applies(callee: Value, args: seq<Value>, st: State, result: Result<Value>)
    | Loops(test: Node, body: Node, env: Env, st: State, result: Result<Value>)

  datatype Proof = Proof(conclusion: Judgement, premises: seq<Proof>)

  ghost predicate IsProof(h: Host, d: Proof) {
    && Rule(h, d.conclusion, Conclusions(d.premises))
    && forall i | 0 <= i < |d.premises| :: IsProof(h, d.premises[i])
  }

  function Conclusions(ds: seq<Proof>): (js: seq<Judgement>)
    ensures |js| == |ds|
  {
    seq(|ds|, i requires 0 <= i < |ds| => ds[i].conclusion)
  }

  ghost predicate Holds(h: Host, j: Judgement) {
    exists d :: IsProof(h, d) && d.conclusion == j
  }

  // ----- Names -----

  predicate Binds(frames: seq<Frame>, a: nat, x: string) {
    a < |frames| && x in frames[a]
  }

  predicate IsUnbound(frames: seq<Frame>, env: Env, x: string) {
    forall i | 0 <= i < |env| :: !Binds(frames, env[i], x)
  }

  /** The innermost frame that binds `x` is the `i`-th of the environment. */
  predicate IsInnermost(frames: seq<Frame>, env: Env, x: string, i: nat) {
    i < |env| && Binds(frames, env[i], x) && forall j | 0 <= j < i :: !Binds(frames, env[j], x)
  }

  predicate Names(frames: seq<Frame>, env: Env, x: string, v: Value) {
    exists i: nat | i < |env| :: IsInnermost(frames, env, x, i) && frames[env[i]][x].value == v
  }

  /** `st'` is `st` with `x` written in the innermost frame that binds it. */
  predicate IsWritten(st: State, env: Env, x: string, v: Value, st': State) {
    exists i: nat | i < |env| :: IsInnermost(st.frames, env, x, i) &&
        st' == Bound(st, env[i], x, v, st.frames[env[i]][x].mutable)
  }

  function Bound(st: State, a: nat, x: string, v: Value, mutable: bool): State
    requires a < |st.frames|
  {
    st.(frames := st.frames[a := st.frames[a][x := Denoted(v, mutable)]])
  }

  /** One more frame. */
  function Within(st: State, f: Frame): State {
    st.(frames := st.frames + [f])
  }

  function Inner(st: State, env: Env): Env {
    [|st.frames|] + env
  }

  /** A frame that binds just the parameters, each to the last argument given for it. */
  ghost predicate IsFrameOf(f: Frame, ps: seq<string>, vs: seq<Value>) {
    && |ps| == |vs| && (forall x :: x in f <==> x in ps)
    && forall i | 0 <= i < |ps| && ps[i] !in ps[i + 1..] :: f[ps[i]] == Denoted(vs[i], true)
  }

  // ----- Values -----

  /** The values that a loop stops on. */
  predicate IsFalsy(v: Value) {
    v == Undefined || v == P(Bool(false)) || v == P(Str("")) || v == P(Num(Finite(0.0))) || v == P(Num(NotANumber))
  }

  /** Primitives are identical if they are equal, but for NaN; objects if they are the same object. */
  predicate AreIdentical(v: Value, w: Value) {
    || (v == Undefined && w == Undefined)
    || (v.P? && w.P? && v.p == w.p && v.p != Num(NotANumber))
    || (v.Nil? && w.Nil? && v.id == w.id) || (v.Pair? && w.Pair? && v.id == w.id)
    || (v.Closure? && w.Closure? && v.id == w.id) || (v.Builtin? && w.Builtin? && v.name == w.name)
  }

  /** A list of `vs`, with the identities from `next` on. */
  predicate IsList(v: Value, vs: seq<Value>, next: nat) {
    if vs == [] then v == Nil(next)
    else v.Pair? && v.id == next + |vs| && v.head == vs[0] && IsList(v.tail, vs[1..], next)
  }

  /** What an operator of the host sees of a value. */
  predicate Looks(v: Value, w: View) {
    match v
    case Undefined => w == VUndefined
    case P(p) => w == VPrim(p)
    case Nil(_) => w == VNil
    case Pair(_, a, b) => w.VPair? && Looks(a, w.head) && Looks(b, w.tail)
    case _ => w == VObject
  }

  /** An operator of the host applied to two values. */
  ghost predicate IsOperation(h: Host, op: string, v: Value, w: Value, r: Value) {
    exists a, b :: Looks(v, a) && Looks(w, b) && r == P(h.arith(op, a, b))
  }

  function Nth(args: seq<Value>, i: nat): Value {
    if i < |args| then args[i] else Undefined
  }

  ghost predicate BuiltinRule(h: Host, f: string, args: seq<Value>, st: State, r: Result<Value>) {
    var v, w := Nth(args, 0), Nth(args, 1);
    if f == "pair" then r == Ok(Pair(st.next, v, w), st.(next := st.next + 1))
    else if f == "head" then r == if v.Pair? then Ok(v.head, st) else Fail(NotAPair, st)
    else if f == "tail" then r == if v.Pair? then Ok(v.tail, st) else Fail(NotAPair, st)
    else if f == "list" then
      r.Ok? && IsList(r.value, args, st.next) && r.st == st.(next := st.next + |args| + 1)
    else if f == "is_empty_list" then r == Ok(P(Bool(v.Nil?)), st)
    else if f == "display" then r == Ok(Undefined, st)
    else if f == "error" then r == Fail(UserError, st)
    else if f == "===" then r == Ok(P(Bool(AreIdentical(v, w))), st)
    else if f == "!==" then r == Ok(P(Bool(!AreIdentical(v, w))), st)
    else if f == "!" then r == Ok(P(Bool(IsFalsy(v))), st)
    else r.Ok? && r.st == st && IsOperation(h, f, v, w, r.value)
  }

  // ----- Rules -----

  /** Premise `i` evaluates `n`. */
  predicate IsPremise(js: seq<Judgement>, i: nat, n: Node, env: Env, st: State) {
    i < |js| && js[i].Evaluates? && js[i].node == n && js[i].env == env && js[i].st == st
  }

  ghost predicate Rule(h: Host, j: Judgement, js: seq<Judgement>) {
    match j
    case Evaluates(n, env, st, r) => NodeRule(n, env, st, r, js)
    case RunsAll(ss, env, st, r) => RowRule(ss, env, st, r, js)
    case ListsAll(es, env, st, r) => ListRule(es, env, st, r, js)
    case Applies(f, args, st, r) => CallRule(h, f, args, st, r, js)
    case Loops(p, b, env, st, r) => LoopRule(p, b, env, st, r, js)
  }

  ghost predicate NodeRule(n: Node, env: Env, st: State, r: Result<Value>, js: seq<Judgement>) {
    match n
    case Lit(p) => js == [] && r == Ok(P(p), st)
    case EmptyListExpr => js == [] && r == Ok(Nil(st.next), st.(next := st.next + 1))
    case FunDef(ps, b) => js == [] && r == Ok(Closure(st.next, ps, b, env), st.(next := st.next + 1))
    case Name(x) =>
      js == [] &&
      if IsUnbound(st.frames, env, x) then r == Fail(UnboundName(x), st)
      else r.Ok? && r.st == st && Names(st.frames, env, x, r.value)
    case ConstDecl(x, e) => DeclarationRule(x, e, false, env, st, r, js)
    case VarDecl(x, e) => DeclarationRule(x, e, true, env, st, r, js)
    case Assignment(x, e) => AssignmentRule(x, e, env, st, r, js)
    case CondStmt(p, c, a) => ChoiceRule(p, c, a, env, st, r, js)
    case CondExpr(p, c, a) => ChoiceRule(p, c, a, env, st, r, js)
    case BoolOp(op, a, b) => ConnectiveRule(op, a, b, env, st, r, js)
    case Return(e) =>
      |js| == 1 && IsPremise(js, 0, e, env, st) &&
      var q := js[0].result;
      r == if q.Ok? then Ok(ReturnValue(q.value), q.st) else q
    case Sequence(ss) => js == [RunsAll(ss, env, st, r)]
    case Block(b) => js == [Evaluates(b, Inner(st, env), Within(st, map[]), r)]
    case While(p, b) => js == [Loops(p, b, env, st, r)]
    case For(i, p, f, b) =>
      js == [Evaluates(Block(Sequence([i, While(p, Block(Sequence(b + [f])))])), env, st, r)]
    case Application(f, es) => ApplicationRule(f, es, env, st, r, js)
    case Unsupported(_) => js == [] && r == Fail(UnknownExpression, st)
  }

  /** The innermost frame gets the binding. */
  ghost predicate DeclarationRule(x: string, e: Node, mutable: bool, env: Env, st: State, r: Result<Value>,
                                  js: seq<Judgement>) {
    |js| == 1 && IsPremise(js, 0, e, env, st) &&
    var q := js[0].result;
    if q.Fail? then r == q
    else if env == [] then r == Fail(NotAPair, q.st)
    else r == Ok(Undefined, if env[0] < |q.st.frames| then Bound(q.st, env[0], x, q.value, mutable) else q.st)
  }

  ghost predicate AssignmentRule(x: string, e: Node, env: Env, st: State, r: Result<Value>, js: seq<Judgement>) {
    |js| == 1 && IsPremise(js, 0, e, env, st) &&
    var q := js[0].result;
    if q.Fail? then r == q
    else if IsUnbound(q.st.frames, env, x) then r == Fail(UnboundName(x), q.st)
    else r.Ok? && r.value == q.value && IsWritten(q.st, env, x, q.value, r.st)
  }

  /** The consequent follows `true`, the alternative anything else. */
  ghost predicate ChoiceRule(p: Node, c: Node, a: Node, env: Env, st: State, r: Result<Value>, js: seq<Judgement>) {
    IsPremise(js, 0, p, env, st) &&
    var q := js[0].result;
    if q.Fail? then |js| == 1 && r == q
    else |js| == 2 && js[1] == Evaluates(if q.value == P(Bool(true)) then c else a, env, q.st, r)
  }

  ghost predicate ConnectiveRule(op: string, a: Node, b: Node, env: Env, st: State, r: Result<Value>,
                                 js: seq<Judgement>) {
    IsPremise(js, 0, a, env, st) &&
    var q := js[0].result;
    if q.Fail? then |js| == 1 && r == q
    else if (q.value == P(Bool(true))) == (op == "&&") then |js| == 2 && js[1] == Evaluates(b, env, q.st, r)
    else |js| == 1 && r == Ok(P(Bool(op != "&&")), q.st)
  }

  /** The operator first, then the operands, then the call. */
  ghost predicate ApplicationRule(f: Node, es: seq<Node>, env: Env, st: State, r: Result<Value>, js: seq<Judgement>) {
    IsPremise(js, 0, f, env, st) &&
    var q := js[0].result;
    if q.Fail? then |js| == 1 && r == q
    else
      |js| > 1 && js[1].ListsAll? && js[1] == ListsAll(es, env, q.st, js[1].values) &&
      match js[1].values
      case Fail(e, st') => |js| == 2 && r == Fail(e, st')
      case Ok(vs, st') => |js| == 3 && js[2] == Applies(q.value, vs, st', r)
  }

  /** A return ends the row. */
  ghost predicate RowRule(ss: seq<Node>, env: Env, st: State, r: Result<Value>, js: seq<Judgement>) {
    if ss == [] then js == [] && r == Fail(NotAPair, st)
    else
      IsPremise(js, 0, ss[0], env, st) &&
      var q := js[0].result;
      if |ss| == 1 || q.Fail? || q.value.ReturnValue? then |js| == 1 && r == q
      else |js| == 2 && js[1] == RunsAll(ss[1..], env, q.st, r)
  }

  ghost predicate ListRule(es: seq<Node>, env: Env, st: State, r: Result<seq<Value>>, js: seq<Judgement>) {
    if es == [] then js == [] && r == Ok([], st)
    else
      IsPremise(js, 0, es[0], env, st) &&
      var q := js[0].result;
      if q.Fail? then |js| == 1 && r == Fail(q.error, q.st)
      else
        |js| == 2 && js[1].ListsAll? && js[1] == ListsAll(es[1..], env, q.st, js[1].values) &&
        match js[1].values
        case Fail(e, st') => r == Fail(e, st')
        case Ok(vs, st') => r == Ok([q.value] + vs, st')
  }

  /** The body runs in one new frame around the closure's; what it returns is the value of the call. */
  ghost predicate CallRule(h: Host, f: Value, args: seq<Value>, st: State, r: Result<Value>, js: seq<Judgement>) {
    match f
    case Builtin(name) => js == [] && BuiltinRule(h, name, args, st, r)
    case Closure(_, ps, body, env) =>
      if |args| > |ps| then js == [] && r == Fail(TooManyArguments, st)
      else if |args| < |ps| then js == [] && r == Fail(TooFewArguments, st)
      else
        |js| == 1 && js[0].Evaluates? &&
        (exists frame ::
           IsFrameOf(frame, ps, args) && IsPremise(js, 0, body, Inner(st, env), Within(st, frame))) &&
        var q := js[0].result;
        r == (if q.Fail? then q else if q.value.ReturnValue? then Ok(q.value.content, q.st) else Ok(Undefined, q.st))
    case _ => js == [] && r == Fail(UnknownFunction, st)
  }

  /** The body is run for its effects alone. */
  ghost predicate LoopRule(p: Node, b: Node, env: Env, st: State, r: Result<Value>, js: seq<Judgement>) {
    IsPremise(js, 0, p, env, st) &&
    var q := js[0].result;
    if q.Fail? then |js| == 1 && r == q
    else if IsFalsy(q.value) then |js| == 1 && r == Ok(P(Bool(true)), q.st)
    else
      IsPremise(js, 1, b, env, q.st) &&
      if js[1].result.Fail? then |js| == 2 && r == js[1].result
      else |js| == 3 && js[2] == Loops(p, b, env, js[1].result.st, r)
  }

  // ----- The evaluator's functions are what the rules say -----

  lemma {:induction false} ResolveIs(frames: seq<Frame>, env: Env, x: string) returns (i: nat)
    ensures match Resolve(frames, env, x)
            case None => IsUnbound(frames, env, x)
            case Some(a) => IsInnermost(frames, env, x, i) && env[i] == a
  {
    i := 0;
    if env != [] && !Binds(frames, env[0], x) {
      var j := ResolveIs(frames, env[1..], x);
      i := j + 1;
      if Resolve(frames, env, x).None? {
        forall m | 0 <= m < |env| ensures !Binds(frames, env[m], x) {
          if m > 0 { assert env[m] == env[1..][m - 1]; }
        }
      } else {
        forall m | 0 <= m < i ensures !Binds(frames, env[m], x) {
          if m > 0 { assert env[m] == env[1..][m - 1]; }
        }
      }
    }
  }

  lemma InnermostIsOne(frames: seq<Frame>, env: Env, x: string, i: nat, j: nat)
    requires IsInnermost(frames, env, x, i) && IsInnermost(frames, env, x, j)
    ensures i == j && !IsUnbound(frames, env, x)
  {
  }

  /** A name means what it is looked up as. */
  lemma LookupIs(frames: seq<Frame>, env: Env, x: string, v: Value)
    ensures Lookup(frames, env, x) == None <==> IsUnbound(frames, env, x)
    ensures Lookup(frames, env, x) == Some(v) <==> Names(frames, env, x, v)
  {
    hide Resolve, IsInnermost, IsUnbound;
    var i := ResolveIs(frames, env, x);
    if Resolve(frames, env, x).Some? {
      InnermostIsOne(frames, env, x, i, i);
      InnermostBinds(frames, env, x, i);
      forall j: nat | j < |env| && IsInnermost(frames, env, x, j) ensures j == i {
        InnermostIsOne(frames, env, x, i, j);
      }
    } else {
      forall j: nat | j < |env| ensures !IsInnermost(frames, env, x, j) { UnboundHasNone(frames, env, x, j); }
    }
  }

  lemma InnermostBinds(frames: seq<Frame>, env: Env, x: string, i: nat)
    requires IsInnermost(frames, env, x, i)
    ensures i < |env| && env[i] < |frames| && x in frames[env[i]]
  {
  }

  lemma UnboundHasNone(frames: seq<Frame>, env: Env, x: string, j: nat)
    requires IsUnbound(frames, env, x)
    ensures !IsInnermost(frames, env, x, j)
  {
  }

  /** An assignment writes where the name is bound. */
  lemma AssignIs(st: State, env: Env, x: string, v: Value, st': State)
    ensures Assign(st.frames, env, x, v) == None <==> IsUnbound(st.frames, env, x)
    ensures (st.next == st'.next && Assign(st.frames, env, x, v) == Some(st'.frames)) <==> IsWritten(st, env, x, v, st')
  {
    hide Resolve, IsInnermost, IsUnbound;
    var i := ResolveIs(st.frames, env, x);
    if Resolve(st.frames, env, x).Some? {
      InnermostIsOne(st.frames, env, x, i, i);
      InnermostBinds(st.frames, env, x, i);
      forall j: nat | j < |env| && IsInnermost(st.frames, env, x, j) ensures j == i {
        InnermostIsOne(st.frames, env, x, i, j);
      }
    } else {
      forall j: nat | j < |env| ensures !IsInnermost(st.frames, env, x, j) { UnboundHasNone(st.frames, env, x, j); }
    }
  }

  /** There is one frame that binds just the parameters to their last arguments. */
  lemma FrameIs(f: Frame, ps: seq<string>, vs: seq<Value>)
    requires |ps| == |vs|
    ensures IsFrameOf(f, ps, vs) <==> f == MakeFrame(ps, vs)
  {
    var g := MakeFrame(ps, vs);
    forall i | 0 <= i < |ps| && ps[i] !in ps[i + 1..] ensures g[ps[i]] == Denoted(vs[i], true) {
      MakeFrameBindsLast(ps, vs, i);
    }
    if IsFrameOf(f, ps, vs) {
      forall x | x in ps ensures f[x] == g[x] {
        var i := LastOf(ps, x);
        assert f[ps[i]] == Denoted(vs[i], true);
      }
      assert f == g;
    }
  }

  lemma {:induction false} LastOf(ps: seq<string>, x: string) returns (i: nat)
    requires x in ps
    ensures i < |ps| && ps[i] == x && x !in ps[i + 1..]
    decreases |ps|
  {
    var n := |ps| - 1;
    if ps[n] == x {
      i := n;
    } else {
      assert ps == ps[..n] + [ps[n]];
      assert |ps[..n]| < |ps|;
      i := LastOf(ps[..n], x);
      assert ps[i + 1..] == ps[..n][i + 1..] + [ps[n]];
    }
  }

  lemma FalsyIs(v: Value)
    ensures IsFalsy(v) <==> !Truthy(v)
  {
  }

  lemma IdenticalIs(v: Value, w: Value)
    ensures AreIdentical(v, w) <==> StrictEquals(v, w)
  {
  }

  lemma {:induction false} ListIs(v: Value, vs: seq<Value>, next: nat)
    ensures IsList(v, vs, next) <==> v == MakeList(vs, next).0
    ensures MakeList(vs, next).1 == next + |vs| + 1
    decreases |vs|
  {
    if vs != [] {
      ListIs(if v.Pair? then v.tail else v, vs[1..], next);
      ListIs(MakeList(vs[1..], next).0, vs[1..], next);
    }
  }

  lemma {:induction false} LooksLikeItsView(v: Value, w: View)
    ensures Looks(v, w) <==> w == ViewOf(v)
  {
    match v
    case Pair(_, a, b) =>
      LooksLikeItsView(a, if w.VPair? then w.head else w);
      LooksLikeItsView(b, if w.VPair? then w.tail else w);
    case _ =>
  }

  lemma BuiltinIs(h: Host, f: string, args: seq<Value>, st: State, r: Result<Value>)
    ensures BuiltinRule(h, f, args, st, r) <==> r == ApplyBuiltin(h, f, args, st)
  {
    hide AreIdentical, StrictEquals, IsFalsy, Truthy, Looks, ViewOf, IsList, MakeList;
    var v, w := Nth(args, 0), Nth(args, 1);
    IdenticalIs(v, w);
    FalsyIs(v);
    LooksLikeItsView(v, ViewOf(v));
    LooksLikeItsView(w, ViewOf(w));
    forall a ensures Looks(v, a) <==> a == ViewOf(v) { LooksLikeItsView(v, a); }
    forall a ensures Looks(w, a) <==> a == ViewOf(w) { LooksLikeItsView(w, a); }
    if r.Ok? { ListIs(r.value, args, st.next); }
    ListIs(MakeList(args, st.next).0, args, st.next);
  }

  // ----- One rule and one step of the evaluator -----

  predicate Answers<T>(r: Result<T>) {
    r.Ok? || r.error != OutOfFuel
  }

  /** With fuel `k` the evaluator comes to what is judged. */
  ghost predicate RunsTo(h: Host, j: Judgement, k: nat) {
    match j
    case Evaluates(n, env, st, r) => Eval(h, n, env, st, k) == r && Answers(r)
    case RunsAll(ss, env, st, r) => EvalSequence(h, ss, env, st, k) == r && Answers(r)
    case ListsAll(es, env, st, r) => ListOfValues(h, es, env, st, k) == r && Answers(r)
    case Applies(f, args, st, r) => Apply(h, f, args, st, k) == r && Answers(r)
    case Loops(p, b, env, st, r) => EvalWhile(h, p, b, env, st, k) == r && Answers(r)
  }

  ghost predicate AllRun(h: Host, js: seq<Judgement>, k: nat) {
    forall i | 0 <= i < |js| :: RunsTo(h, js[i], k)
  }

  lemma PremiseRuns(h: Host, js: seq<Judgement>, i: nat, n: Node, env: Env, st: State, k: nat)
    requires IsPremise(js, i, n, env, st) && RunsTo(h, js[i], k)
    ensures Eval(h, n, env, st, k) == js[i].result && Answers(js[i].result)
  {
    hide Eval;
  }

  lemma DeclarationRuns(h: Host, x: string, e: Node, m: bool, env: Env, st: State, r: Result<Value>,
                        js: seq<Judgement>, k: nat)
    requires DeclarationRule(x, e, m, env, st, r, js) && AllRun(h, js, k)
    ensures EvalDeclaration(h, x, e, m, env, st, k + 1) == r && Answers(r)
  {
    hide Eval;
    assert RunsTo(h, js[0], k);
  }

  lemma AssignmentRuns(h: Host, x: string, e: Node, env: Env, st: State, r: Result<Value>, js: seq<Judgement>, k: nat)
    requires AssignmentRule(x, e, env, st, r, js) && AllRun(h, js, k)
    ensures EvalAssignment(h, x, e, env, st, k + 1) == r && Answers(r)
  {
    hide Eval, Assign, IsWritten, IsUnbound;
    assert RunsTo(h, js[0], k);
    var q := js[0].result;
    if q.Ok? { AssignIs(q.st, env, x, q.value, r.st); }
  }

  lemma ChoiceRuns(h: Host, p: Node, c: Node, a: Node, env: Env, st: State, r: Result<Value>, js: seq<Judgement>,
                   k: nat)
    requires ChoiceRule(p, c, a, env, st, r, js) && AllRun(h, js, k)
    ensures EvalConditional(h, p, c, a, env, st, k + 1) == r && Answers(r)
  {
    hide Eval, RunsTo, EvalConditional;
    var q := js[0].result;
    assert RunsTo(h, js[0], k);
    PremiseRuns(h, js, 0, p, env, st, k);
    if q.Ok? {
      var n := if q.value == P(Bool(true)) then c else a;
      assert RunsTo(h, js[1], k) && IsPremise(js, 1, n, env, q.st);
      PremiseRuns(h, js, 1, n, env, q.st, k);
    }
    ConditionalIs(h, p, c, a, env, st, k, q);
  }

  lemma ConditionalIs(h: Host, p: Node, c: Node, a: Node, env: Env, st: State, k: nat, q: Result<Value>)
    requires Eval(h, p, env, st, k) == q
    ensures EvalConditional(h, p, c, a, env, st, k + 1) ==
            if q.Fail? then q else Eval(h, if q.value == P(Bool(true)) then c else a, env, q.st, k)
  {
    hide Eval;
  }

  lemma ConnectiveRuns(h: Host, op: string, a: Node, b: Node, env: Env, st: State, r: Result<Value>, js: seq<Judgement>,
                       k: nat)
    requires ConnectiveRule(op, a, b, env, st, r, js) && AllRun(h, js, k)
    ensures EvalBoolean(h, op, a, b, env, st, k + 1) == r && Answers(r)
  {
    hide Eval;
    assert RunsTo(h, js[0], k);
    if |js| > 1 { assert RunsTo(h, js[1], k); }
  }

  lemma ApplicationRuns(h: Host, f: Node, es: seq<Node>, env: Env, st: State, r: Result<Value>, js: seq<Judgement>,
                        k: nat)
    requires ApplicationRule(f, es, env, st, r, js) && AllRun(h, js, k)
    ensures EvalApplication(h, f, es, env, st, k + 1) == r && Answers(r)
  {
    hide Eval, ListOfValues, Apply;
    assert RunsTo(h, js[0], k);
    if |js| > 1 { assert RunsTo(h, js[1], k); }
    if |js| > 2 { assert RunsTo(h, js[2], k); }
  }

  lemma RowRuns(h: Host, ss: seq<Node>, env: Env, st: State, r: Result<Value>, js: seq<Judgement>, k: nat)
    requires RowRule(ss, env, st, r, js) && AllRun(h, js, k)
    ensures EvalSequence(h, ss, env, st, k + 1) == r && Answers(r)
  {
    hide Eval;
    if |js| > 0 { assert RunsTo(h, js[0], k); }
    if |js| > 1 { assert RunsTo(h, js[1], k); }
  }

  lemma ListRuns(h: Host, es: seq<Node>, env: Env, st: State, r: Result<seq<Value>>, js: seq<Judgement>, k: nat)
    requires ListRule(es, env, st, r, js) && AllRun(h, js, k)
    ensures ListOfValues(h, es, env, st, k + 1) == r && Answers(r)
  {
    hide Eval;
    if |js| > 0 { assert RunsTo(h, js[0], k); }
    if |js| > 1 { assert RunsTo(h, js[1], k); }
  }

  lemma CallRuns(h: Host, f: Value, args: seq<Value>, st: State, r: Result<Value>, js: seq<Judgement>, k: nat)
    requires CallRule(h, f, args, st, r, js) && AllRun(h, js, k)
    ensures Apply(h, f, args, st, k + 1) == r && Answers(r)
  {
    hide Eval, BuiltinRule, ApplyBuiltin, IsFrameOf;
    if f.Builtin? {
      BuiltinIs(h, f.name, args, st, r);
      BuiltinAnswers(h, f.name, args, st);
    } else if f.Closure? && |f.parameters| == |args| {
      var frame :| IsFrameOf(frame, f.parameters, args) &&
                   IsPremise(js, 0, f.body, Inner(st, f.env), Within(st, frame));
      FrameIs(frame, f.parameters, args);
      assert RunsTo(h, js[0], k);
    }
  }

  lemma BuiltinAnswers(h: Host, f: string, args: seq<Value>, st: State)
    ensures Answers(ApplyBuiltin(h, f, args, st))
  {
  }

  lemma LoopRuns(h: Host, p: Node, b: Node, env: Env, st: State, r: Result<Value>, js: seq<Judgement>, k: nat)
    requires LoopRule(p, b, env, st, r, js) && AllRun(h, js, k)
    ensures EvalWhile(h, p, b, env, st, k + 1) == r && Answers(r)
  {
    hide Eval, IsFalsy, Truthy;
    assert RunsTo(h, js[0], k);
    var q := js[0].result;
    if q.Ok? { FalsyIs(q.value); }
    if |js| > 1 { assert RunsTo(h, js[1], k); }
    if |js| > 2 { assert RunsTo(h, js[2], k); }
  }

  lemma NodeRuns(h: Host, n: Node, env: Env, st: State, r: Result<Value>, js: seq<Judgement>, k: nat)
    requires NodeRule(n, env, st, r, js) && AllRun(h, js, k)
    ensures Eval(h, n, env, st, k + 1) == r && Answers(r)
  {
    hide EvalDeclaration, EvalAssignment, EvalConditional, EvalBoolean, EvalApplication, EvalSequence, EvalWhile,
         DeclarationRule, AssignmentRule, ChoiceRule, ConnectiveRule, ApplicationRule, Names, IsUnbound, Lookup;
    if |js| == 1 { assert RunsTo(h, js[0], k); }
    match n
    case Name(x) => LookupIs(st.frames, env, x, if r.Ok? then r.value else Undefined);
    case ConstDecl(x, e) => DeclarationRuns(h, x, e, false, env, st, r, js, k);
    case VarDecl(x, e) => DeclarationRuns(h, x, e, true, env, st, r, js, k);
    case Assignment(x, e) => AssignmentRuns(h, x, e, env, st, r, js, k);
    case CondStmt(p, c, a) => ChoiceRuns(h, p, c, a, env, st, r, js, k);
    case CondExpr(p, c, a) => ChoiceRuns(h, p, c, a, env, st, r, js, k);
    case BoolOp(op, a, b) => ConnectiveRuns(h, op, a, b, env, st, r, js, k);
    case Application(f, es) => ApplicationRuns(h, f, es, env, st, r, js, k);
    case _ =>
  }

  /** A rule whose premises the evaluator comes to takes it to the conclusion. */
  lemma RuleRuns(h: Host, j: Judgement, js: seq<Judgement>, k: nat)
    requires Rule(h, j, js) && AllRun(h, js, k)
    ensures RunsTo(h, j, k + 1)
  {
    hide NodeRule, RowRule, ListRule, CallRule, LoopRule, Eval, EvalSequence, ListOfValues, Apply, EvalWhile, AllRun;
    match j
    case Evaluates(n, env, st, r) => NodeRuns(h, n, env, st, r, js, k);
    case RunsAll(ss, env, st, r) => RowRuns(h, ss, env, st, r, js, k);
    case ListsAll(es, env, st, r) => ListRuns(h, es, env, st, r, js, k);
    case Applies(f, args, st, r) => CallRuns(h, f, args, st, r, js, k);
    case Loops(p, b, env, st, r) => LoopRuns(h, p, b, env, st, r, js, k);
  }

  // ----- One step of the evaluator and its rule -----

  function Judged(h: Host, n: Node, env: Env, st: State, k: nat): Judgement {
    Evaluates(n, env, st, Eval(h, n, env, st, k))
  }

  lemma DeclarationHasRule(h: Host, x: string, e: Node, m: bool, env: Env, st: State, r: Result<Value>, k: nat)
    returns (js: seq<Judgement>)
    requires k > 0 && EvalDeclaration(h, x, e, m, env, st, k) == r && Answers(r)
    ensures DeclarationRule(x, e, m, env, st, r, js) && AllRun(h, js, k - 1)
  {
    hide Eval;
    js := [Judged(h, e, env, st, k - 1)];
  }

  lemma AssignmentHasRule(h: Host, x: string, e: Node, env: Env, st: State, r: Result<Value>, k: nat)
    returns (js: seq<Judgement>)
    requires k > 0 && EvalAssignment(h, x, e, env, st, k) == r && Answers(r)
    ensures AssignmentRule(x, e, env, st, r, js) && AllRun(h, js, k - 1)
  {
    hide Eval, Assign, IsWritten, IsUnbound;
    js := [Judged(h, e, env, st, k - 1)];
    var q := js[0].result;
    if q.Ok? { AssignIs(q.st, env, x, q.value, r.st); }
  }

  lemma ChoiceHasRule(h: Host, p: Node, c: Node, a: Node, env: Env, st: State, r: Result<Value>, k: nat)
    returns (js: seq<Judgement>)
    requires k > 0 && EvalConditional(h, p, c, a, env, st, k) == r && Answers(r)
    ensures ChoiceRule(p, c, a, env, st, r, js) && AllRun(h, js, k - 1)
  {
    hide Eval, EvalConditional, AllRun, ChoiceRule;
    var q := Eval(h, p, env, st, k - 1);
    ConditionalIs(h, p, c, a, env, st, k - 1, q);
    if q.Ok? {
      var n := if q.value == P(Bool(true)) then c else a;
      js := [Evaluates(p, env, st, q), Evaluates(n, env, q.st, r)];
      TwoRun(h, js, k - 1);
      ChoiceGoesOn(p, c, a, env, st, r, q, n);
    } else {
      js := [Evaluates(p, env, st, q)];
      OneRuns(h, js, k - 1);
      ChoiceFails(p, c, a, env, st, q);
    }
  }

  lemma OneRuns(h: Host, js: seq<Judgement>, k: nat)
    requires |js| == 1 && RunsTo(h, js[0], k)
    ensures AllRun(h, js, k)
  {
    hide RunsTo;
  }

  lemma TwoRun(h: Host, js: seq<Judgement>, k: nat)
    requires |js| == 2 && RunsTo(h, js[0], k) && RunsTo(h, js[1], k)
    ensures AllRun(h, js, k)
  {
    hide RunsTo;
  }

  lemma ChoiceGoesOn(p: Node, c: Node, a: Node, env: Env, st: State, r: Result<Value>, q: Result<Value>, n: Node)
    requires q.Ok? && n == if q.value == P(Bool(true)) then c else a
    ensures ChoiceRule(p, c, a, env, st, r, [Evaluates(p, env, st, q), Evaluates(n, env, q.st, r)])
  {
  }

  lemma ChoiceFails(p: Node, c: Node, a: Node, env: Env, st: State, q: Result<Value>)
    requires q.Fail?
    ensures ChoiceRule(p, c, a, env, st, q, [Evaluates(p, env, st, q)])
  {
  }

  lemma ConnectiveHasRule(h: Host, op: string, a: Node, b: Node, env: Env, st: State, r: Result<Value>, k: nat)
    returns (js: seq<Judgement>)
    requires k > 0 && EvalBoolean(h, op, a, b, env, st, k) == r && Answers(r)
    ensures ConnectiveRule(op, a, b, env, st, r, js) && AllRun(h, js, k - 1)
  {
    hide Eval;
    var q := Eval(h, a, env, st, k - 1);
    js := [Judged(h, a, env, st, k - 1)];
    if q.Ok? && (q.value == P(Bool(true))) == (op == "&&") { js := js + [Judged(h, b, env, q.st, k - 1)]; }
  }

  lemma ApplicationHasRule(h: Host, f: Node, es: seq<Node>, env: Env, st: State, r: Result<Value>, k: nat)
    returns (js: seq<Judgement>)
    requires k > 0 && EvalApplication(h, f, es, env, st, k) == r && Answers(r)
    ensures ApplicationRule(f, es, env, st, r, js) && AllRun(h, js, k - 1)
  {
    hide Eval, ListOfValues, Apply;
    var q := Eval(h, f, env, st, k - 1);
    js := [Judged(h, f, env, st, k - 1)];
    if q.Ok? {
      var vs := ListOfValues(h, es, env, q.st, k - 1);
      js := js + [ListsAll(es, env, q.st, vs)];
      if vs.Ok? { js := js + [Applies(q.value, vs.value, vs.st, r)]; }
    }
  }

  lemma RowHasRule(h: Host, ss: seq<Node>, env: Env, st: State, r: Result<Value>, k: nat) returns (js: seq<Judgement>)
    requires k > 0 && EvalSequence(h, ss, env, st, k) == r && Answers(r)
    ensures RowRule(ss, env, st, r, js) && AllRun(h, js, k - 1)
  {
    hide Eval;
    js := [];
    if ss != [] {
      var q := Eval(h, ss[0], env, st, k - 1);
      js := [Judged(h, ss[0], env, st, k - 1)];
      if |ss| > 1 && q.Ok? && !q.value.ReturnValue? { js := js + [RunsAll(ss[1..], env, q.st, r)]; }
    }
  }

  lemma ListHasRule(h: Host, es: seq<Node>, env: Env, st: State, r: Result<seq<Value>>, k: nat)
    returns (js: seq<Judgement>)
    requires k > 0 && ListOfValues(h, es, env, st, k) == r && Answers(r)
    ensures ListRule(es, env, st, r, js) && AllRun(h, js, k - 1)
  {
    hide Eval;
    js := [];
    if es != [] {
      var q := Eval(h, es[0], env, st, k - 1);
      js := [Judged(h, es[0], env, st, k - 1)];
      if q.Ok? { js := js + [ListsAll(es[1..], env, q.st, ListOfValues(h, es[1..], env, q.st, k - 1))]; }
    }
  }

  lemma CallHasRule(h: Host, f: Value, args: seq<Value>, st: State, r: Result<Value>, k: nat)
    returns (js: seq<Judgement>)
    requires k > 0 && Apply(h, f, args, st, k) == r && Answers(r)
    ensures CallRule(h, f, args, st, r, js) && AllRun(h, js, k - 1)
  {
    hide Eval, BuiltinRule, ApplyBuiltin, IsFrameOf;
    js := [];
    if f.Builtin? {
      BuiltinIs(h, f.name, args, st, r);
    } else if f.Closure? && |f.parameters| == |args| {
      var frame := MakeFrame(f.parameters, args);
      FrameIs(frame, f.parameters, args);
      js := [Judged(h, f.body, Inner(st, f.env), Within(st, frame), k - 1)];
      assert IsPremise(js, 0, f.body, Inner(st, f.env), Within(st, frame));
    }
  }

  lemma LoopHasRule(h: Host, p: Node, b: Node, env: Env, st: State, r: Result<Value>, k: nat)
    returns (js: seq<Judgement>)
    requires k > 0 && EvalWhile(h, p, b, env, st, k) == r && Answers(r)
    ensures LoopRule(p, b, env, st, r, js) && AllRun(h, js, k - 1)
  {
    hide Eval, IsFalsy, Truthy;
    var q := Eval(h, p, env, st, k - 1);
    js := [Judged(h, p, env, st, k - 1)];
    if q.Ok? {
      FalsyIs(q.value);
      if Truthy(q.value) {
        var u := Eval(h, b, env, q.st, k - 1);
        js := js + [Judged(h, b, env, q.st, k - 1)];
        if u.Ok? { js := js + [Loops(p, b, env, u.st, r)]; }
      }
    }
  }

  lemma NodeHasRule(h: Host, n: Node, env: Env, st: State, r: Result<Value>, k: nat) returns (js: seq<Judgement>)
    requires k > 0 && Eval(h, n, env, st, k) == r && Answers(r)
    ensures NodeRule(n, env, st, r, js) && AllRun(h, js, k - 1)
  {
    hide EvalDeclaration, EvalAssignment, EvalConditional, EvalBoolean, EvalApplication, EvalSequence, EvalWhile,
         DeclarationRule, AssignmentRule, ChoiceRule, ConnectiveRule, ApplicationRule, Names, IsUnbound, Lookup;
    js := [];
    match n {
      case Name(x) => LookupIs(st.frames, env, x, if r.Ok? then r.value else Undefined);
      case ConstDecl(x, e) => js := DeclarationHasRule(h, x, e, false, env, st, r, k);
      case VarDecl(x, e) => js := DeclarationHasRule(h, x, e, true, env, st, r, k);
      case Assignment(x, e) => js := AssignmentHasRule(h, x, e, env, st, r, k);
      case CondStmt(p, c, a) => js := ChoiceHasRule(h, p, c, a, env, st, r, k);
      case CondExpr(p, c, a) => js := ChoiceHasRule(h, p, c, a, env, st, r, k);
      case BoolOp(op, a, b) => js := ConnectiveHasRule(h, op, a, b, env, st, r, k);
      case Application(f, es) => js := ApplicationHasRule(h, f, es, env, st, r, k);
      case Return(e) => js := [Judged(h, e, env, st, k - 1)];
      case Sequence(ss) => js := [RunsAll(ss, env, st, r)];
      case Block(b) => js := [Evaluates(b, Inner(st, env), Within(st, map[]), r)];
      case While(p, b) => js := [Loops(p, b, env, st, r)];
      case For(i, p, f, b) => js := [Evaluates(ForBlock(i, p, f, b), env, st, r)];
      case _ =>
    }
  }

  /** Each step of the evaluator is an instance of a rule. */
  lemma StepHasRule(h: Host, j: Judgement, k: nat) returns (js: seq<Judgement>)
    requires RunsTo(h, j, k)
    ensures k > 0 && Rule(h, j, js) && AllRun(h, js, k - 1)
  {
    NoFuelNoAnswer(h, j);
    hide NodeRule, RowRule, ListRule, CallRule, LoopRule, Eval, EvalSequence, ListOfValues, Apply, EvalWhile, AllRun;
    match j {
      case Evaluates(n, env, st, r) => js := NodeHasRule(h, n, env, st, r, k);
      case RunsAll(ss, env, st, r) => js := RowHasRule(h, ss, env, st, r, k);
      case ListsAll(es, env, st, r) => js := ListHasRule(h, es, env, st, r, k);
      case Applies(f, args, st, r) => js := CallHasRule(h, f, args, st, r, k);
      case Loops(p, b, env, st, r) => js := LoopHasRule(h, p, b, env, st, r, k);
    }
  }

  lemma NoFuelNoAnswer(h: Host, j: Judgement)
    ensures !RunsTo(h, j, 0)
  {
  }

  // ----- The evaluator and the rules -----

  lemma MoreFuelRuns(h: Host, j: Judgement, k: nat, k': nat)
    requires RunsTo(h, j, k) && k <= k'
    ensures RunsTo(h, j, k')
  {
    hide Eval, EvalSequence, ListOfValues, Apply, EvalWhile;
    match j
    case Evaluates(n, env, st, r) => ForLoop.EvalIsMonotone(h, n, env, st, k, k');
    case RunsAll(ss, env, st, r) => ForLoop.SequenceIsMonotone(h, ss, env, st, k, k');
    case ListsAll(es, env, st, r) => ForLoop.ValuesAreMonotone(h, es, env, st, k, k');
    case Applies(f, args, st, r) => ForLoop.ApplyIsMonotone(h, f, args, st, k, k');
    case Loops(p, b, env, st, r) =>
      ForLoop.WhileIsMonotone(h, p, b, env, st, k, k', EvalWhile(h, p, b, env, st, k), EvalWhile(h, p, b, env, st, k'));
  }

  /** Whatever is proved the evaluator comes to. */
  lemma {:induction false} ProofRuns(h: Host, d: Proof) returns (k: nat)
    requires IsProof(h, d)
    ensures RunsTo(h, d.conclusion, k)
    decreases d, 0
  {
    hide Rule, RunsTo;
    var m := PremisesRun(h, d.premises, |d.premises|);
    var js := Conclusions(d.premises);
    RuleRuns(h, d.conclusion, js, m);
    k := m + 1;
  }

  lemma {:induction false} PremisesRun(h: Host, ds: seq<Proof>, n: nat) returns (k: nat)
    requires n <= |ds| && forall i | 0 <= i < |ds| :: IsProof(h, ds[i])
    ensures forall i | 0 <= i < n :: RunsTo(h, ds[i].conclusion, k)
    decreases ds, n
  {
    hide IsProof, RunsTo;
    k := 0;
    if n > 0 {
      var k1 := PremisesRun(h, ds, n - 1);
      var k2 := ProofRuns(h, ds[n - 1]);
      k := if k1 < k2 then k2 else k1;
      forall i | 0 <= i < n ensures RunsTo(h, ds[i].conclusion, k) {
        MoreFuelRuns(h, ds[i].conclusion, if i < n - 1 then k1 else k2, k);
      }
    }
  }

  /** And whatever it comes to is proved. */
  lemma {:induction false} RunIsProved(h: Host, j: Judgement, k: nat) returns (d: Proof)
    requires RunsTo(h, j, k)
    ensures IsProof(h, d) && d.conclusion == j
    decreases k, 1, 0
  {
    hide Rule, RunsTo;
    var js := StepHasRule(h, j, k);
    var ds := RunsAreProved(h, js, k - 1, |js|);
    d := Proof(j, ds);
    assert Conclusions(ds) == js;
  }

  lemma {:induction false} RunsAreProved(h: Host, js: seq<Judgement>, k: nat, n: nat) returns (ds: seq<Proof>)
    requires AllRun(h, js, k) && n <= |js|
    ensures |ds| == n && forall i | 0 <= i < n :: IsProof(h, ds[i]) && ds[i].conclusion == js[i]
    decreases k, 2, n
  {
    hide RunsTo, IsProof;
    ds := [];
    if n > 0 {
      var more := RunsAreProved(h, js, k, n - 1);
      var d := RunIsProved(h, js[n - 1], k);
      ds := more + [d];
    }
  }

  /** The evaluator answers `r`, given fuel enough. */
  ghost predicate Gives(h: Host, n: Node, env: Env, st: State, r: Result<Value>) {
    exists k: nat :: Eval(h, n, env, st, k) == r && Answers(r)
  }

  /** The evaluator exactly: it answers `r`, given fuel enough, if and only if the rules prove it. */
  lemma EvalIff(h: Host, n: Node, env: Env, st: State, r: Result<Value>)
    ensures Gives(h, n, env, st, r) <==> Holds(h, Evaluates(n, env, st, r))
  {
    hide Eval, IsProof;
    var j := Evaluates(n, env, st, r);
    if Holds(h, j) {
      var d :| IsProof(h, d) && d.conclusion == j;
      var k := ProofRuns(h, d);
      assert RunsTo(h, j, k);
      assert Eval(h, n, env, st, k) == r && Answers(r);
    }
    if Gives(h, n, env, st, r) {
      var k: nat :| Eval(h, n, env, st, k) == r && Answers(r);
      assert RunsTo(h, j, k);
      var d := RunIsProved(h, j, k);
      assert Holds(h, j);
    }
  }
}

/** Environments and stores that differ in frames a program cannot tell are there: frames that bind none of
    the names it looks up through them, and that gain no more names.
 */
module Alike {
  import opened Syntax
  import opened Environment
  import opened Evaluator
  import opened Scope

  // ----- Free names -----

  /** The names a node looks up or assigns outside of itself.  A declared function may use its own name. */
  function Free(n: Node): set<string>
    decreases n, 0
  {
    match n
    case Name(x) => {x}
    case ConstDecl(x, e) => if e.FunDef? then Free(e) - {x} else Free(e)
    case VarDecl(x, e) => if e.FunDef? then Free(e) - {x} else Free(e)
    case CondStmt(p, c, a) => Free(p) + Free(c) + Free(a)
    case CondExpr(p, c, a) => Free(p) + Free(c) + Free(a)
    case BoolOp(_, l, r) => Free(l) + Free(r)
    case FunDef(ps, b) => Free(b) - Names(ps)
    case Sequence(ss) => FreeIn(ss)
    case Application(f, es) => Free(f) + FreeAll(es)
    case Return(e) => Free(e)
    case Block(b) => Free(b)
    case Assignment(x, e) => {x} + Free(e)
    case While(p, b) => Free(p) + Free(b)
    case For(i, p, f, b) => Free(i) + (Free(p) + FreeIn(b) + (Free(f) - DeclaredIn(b)) - Declared(i))
    case _ => {}
  }

  function FreeIn(ss: seq<Node>): set<string>
    decreases ss, 0
  {
    if ss == [] then {} else Free(ss[0]) + (FreeIn(ss[1..]) - Declared(ss[0]))
  }

  function FreeAll(es: seq<Node>): set<string>
    decreases es, 0
  {
    if es == [] then {} else Free(es[0]) + FreeAll(es[1..])
  }

  /** A node is scoped by exactly those sets of names that have its free ones. */
  lemma {:induction false} ScopedIffFree(n: Node, bound: set<string>)
    ensures Scoped(n, bound) <==> Free(n) <= bound
    decreases n, 0
  {
    match n
    case ConstDecl(x, e) => ScopedIffFree(e, if e.FunDef? then bound + {x} else bound);
    case VarDecl(x, e) => ScopedIffFree(e, if e.FunDef? then bound + {x} else bound);
    case CondStmt(p, c, a) => ScopedIffFree(p, bound); ScopedIffFree(c, bound); ScopedIffFree(a, bound);
    case CondExpr(p, c, a) => ScopedIffFree(p, bound); ScopedIffFree(c, bound); ScopedIffFree(a, bound);
    case BoolOp(_, l, r) => ScopedIffFree(l, bound); ScopedIffFree(r, bound);
    case FunDef(ps, b) => ScopedIffFree(b, bound + Names(ps));
    case Sequence(ss) => ScopedInOrderIffFree(ss, bound);
    case Application(f, es) =>
      ScopedIffFree(f, bound);
      AllScopedIffFree(es, bound);
    case Return(e) => ScopedIffFree(e, bound);
    case Block(b) => ScopedIffFree(b, bound);
    case Assignment(_, e) => ScopedIffFree(e, bound);
    case While(p, b) => ScopedIffFree(p, bound); ScopedIffFree(b, bound);
    case For(i, p, f, b) =>
      ScopedIffFree(i, bound);
      ScopedIffFree(p, bound + Declared(i));
      ScopedInOrderIffFree(b, bound + Declared(i));
      ScopedIffFree(f, bound + Declared(i) + DeclaredIn(b));
    case _ =>
  }

  lemma {:induction false} ScopedInOrderIffFree(ss: seq<Node>, bound: set<string>)
    ensures ScopedInOrder(ss, bound) <==> FreeIn(ss) <= bound
    decreases ss, 0
  {
    if ss != [] {
      ScopedIffFree(ss[0], bound);
      ScopedInOrderIffFree(ss[1..], bound + Declared(ss[0]));
    }
  }

  lemma {:induction false} AllScopedIffFree(es: seq<Node>, bound: set<string>)
    ensures (forall i | 0 <= i < |es| :: Scoped(es[i], bound)) <==> FreeAll(es) <= bound
    decreases es, 0
  {
    if es != [] {
      ScopedIffFree(es[0], bound);
      AllScopedIffFree(es[1..], bound);
      assert forall i | 0 < i < |es| :: es[i] == es[1..][i - 1];
      assert forall i | 0 <= i < |es[1..]| :: es[1..][i] == es[i + 1];
    }
  }

  // ----- Environments -----

  /** Frames that gain no more names, with those they have. */
  type Sealed = map<nat, set<string>>

  /** `env'` is `env` without some sealed frames that bind none of `names` but where frames further in
      bind them as well. */
  ghost predicate AlikeEnv(env: Env, env': Env, names: set<string>, frames: seq<Frame>, sealed: Sealed) {
    if env == [] then env' == []
    else
      || (env' != [] && env[0] == env'[0] &&
          AlikeEnv(env[1..], env'[1..], names - FrameAt(frames, env[0]).Keys, frames, sealed))
      || (env[0] in sealed && sealed[env[0]] !! names && AlikeEnv(env[1..], env', names, frames, sealed))
  }

  lemma {:induction false} AlikeItself(env: Env, names: set<string>, frames: seq<Frame>, sealed: Sealed)
    ensures AlikeEnv(env, env, names, frames, sealed)
  {
    if env != [] { AlikeItself(env[1..], names - FrameAt(frames, env[0]).Keys, frames, sealed); }
  }

  ghost predicate Includes(more: Sealed, sealed: Sealed) {
    forall a | a in sealed :: a in more && more[a] == sealed[a]
  }

  lemma {:induction false} AlikeEnvLater(env: Env, env': Env, names: set<string>, fewer: set<string>,
                                         frames: seq<Frame>, later: seq<Frame>, sealed: Sealed, more: Sealed)
    requires AlikeEnv(env, env', names, frames, sealed) && fewer <= names && Extends(frames, later) &&
        Includes(more, sealed)
    ensures AlikeEnv(env, env', fewer, later, more)
    decreases |env|
  {
    if env != [] {
      var keys, keys' := FrameAt(frames, env[0]).Keys, FrameAt(later, env[0]).Keys;
      assert keys <= keys';
      if env' != [] && env[0] == env'[0] && AlikeEnv(env[1..], env'[1..], names - keys, frames, sealed) {
        AlikeEnvLater(env[1..], env'[1..], names - keys, fewer - keys', frames, later, sealed, more);
      } else {
        AlikeEnvLater(env[1..], env', names, fewer, frames, later, sealed, more);
      }
    }
  }

  /** The first frame of both environments, when that may still be declared in. */
  ghost predicate SameHead(env: Env, env': Env, frames: seq<Frame>, sealed: Sealed) {
    env != [] && env' != [] && env[0] == env'[0] && env[0] < |frames| && env[0] !in sealed
  }

  /** A name that the first frame has come to bind may be looked up too. */
  lemma HeadBinds(env: Env, env': Env, names: set<string>, x: set<string>, frames: seq<Frame>, later: seq<Frame>,
                  sealed: Sealed)
    requires SameHead(env, env', frames, sealed) && AlikeEnv(env, env', names - x, frames, sealed)
    requires Extends(frames, later) && x <= FrameAt(later, env[0]).Keys
    ensures AlikeEnv(env, env', names, later, sealed)
  {
    var keys, keys' := FrameAt(frames, env[0]).Keys, FrameAt(later, env[0]).Keys;
    assert names - keys' <= names - x - keys;
    AlikeEnvLater(env[1..], env'[1..], names - x - keys, names - keys', frames, later, sealed, sealed);
  }

  // ----- Values and stores -----

  ghost predicate AlikeValue(v: Value, w: Value, frames: seq<Frame>, sealed: Sealed) {
    match v
    case Pair(i, h, t) =>
      w.Pair? && w.id == i && AlikeValue(h, w.head, frames, sealed) && AlikeValue(t, w.tail, frames, sealed)
    case Closure(i, ps, b, env) =>
      w.Closure? && w.id == i && w.parameters == ps && w.body == b &&
      AlikeEnv(env, w.env, Free(b) - Names(ps), frames, sealed)
    case ReturnValue(c) => w.ReturnValue? && AlikeValue(c, w.content, frames, sealed)
    case _ => v == w
  }

  lemma {:induction false} ValueAlikeItself(v: Value, frames: seq<Frame>, sealed: Sealed)
    ensures AlikeValue(v, v, frames, sealed)
    decreases v
  {
    match v
    case Pair(_, h, t) => ValueAlikeItself(h, frames, sealed); ValueAlikeItself(t, frames, sealed);
    case Closure(_, ps, b, env) => AlikeItself(env, Free(b) - Names(ps), frames, sealed);
    case ReturnValue(c) => ValueAlikeItself(c, frames, sealed);
    case _ =>
  }

  lemma {:induction false} AlikeValueLater(v: Value, w: Value, frames: seq<Frame>, later: seq<Frame>, sealed: Sealed,
                                           more: Sealed)
    requires AlikeValue(v, w, frames, sealed) && Extends(frames, later) && Includes(more, sealed)
    ensures AlikeValue(v, w, later, more)
    decreases v
  {
    match v
    case Pair(_, h, t) =>
      AlikeValueLater(h, w.head, frames, later, sealed, more);
      AlikeValueLater(t, w.tail, frames, later, sealed, more);
    case Closure(_, ps, b, env) =>
      AlikeEnvLater(env, w.env, Free(b) - Names(ps), Free(b) - Names(ps), frames, later, sealed, more);
    case ReturnValue(c) => AlikeValueLater(c, w.content, frames, later, sealed, more);
    case _ =>
  }

  ghost predicate AlikeValues(vs: seq<Value>, ws: seq<Value>, frames: seq<Frame>, sealed: Sealed) {
    |vs| == |ws| && forall i | 0 <= i < |vs| :: AlikeValue(vs[i], ws[i], frames, sealed)
  }

  ghost predicate AlikeFrame(f: Frame, g: Frame, frames: seq<Frame>, sealed: Sealed) {
    f.Keys == g.Keys &&
    forall x | x in f :: AlikeValue(f[x].value, g[x].value, frames, sealed) && f[x].mutable == g[x].mutable
  }

  ghost predicate AreSealed(frames: seq<Frame>, sealed: Sealed) {
    forall a | a in sealed :: a < |frames| && frames[a].Keys == sealed[a]
  }

  ghost predicate AlikeState(s: State, t: State, sealed: Sealed) {
    && s.next == t.next && |s.frames| == |t.frames|
    && (forall a | 0 <= a < |s.frames| :: AlikeFrame(s.frames[a], t.frames[a], s.frames, sealed))
    && AreSealed(s.frames, sealed)
  }

  ghost predicate AlikeResult(r: Result<Value>, q: Result<Value>, sealed: Sealed) {
    AlikeState(r.st, q.st, sealed) &&
    if r.Ok? then q.Ok? && AlikeValue(r.value, q.value, r.st.frames, sealed) else q.Fail? && q.error == r.error
  }

  lemma StateAlikeItself(s: State)
    ensures AlikeState(s, s, map[])
  {
    forall v: Value ensures AlikeValue(v, v, s.frames, map[]) { ValueAlikeItself(v, s.frames, map[]); }
  }

  /** What was alike stays alike as frames gain names and more of them are sealed. */
  lemma ValuesAlikeLater(frames: seq<Frame>, later: seq<Frame>, sealed: Sealed, more: Sealed)
    requires Extends(frames, later) && Includes(more, sealed)
    ensures forall v, w | AlikeValue(v, w, frames, sealed) :: AlikeValue(v, w, later, more)
  {
    forall v, w | AlikeValue(v, w, frames, sealed) ensures AlikeValue(v, w, later, more) {
      AlikeValueLater(v, w, frames, later, sealed, more);
    }
  }

  /** Sealing a frame that nothing will be declared in any more. */
  lemma Seal(s: State, t: State, sealed: Sealed, a: nat)
    requires AlikeState(s, t, sealed) && a < |s.frames| && a !in sealed
    ensures AlikeState(s, t, sealed[a := s.frames[a].Keys])
  {
    hide AlikeValue;
    ValuesAlikeLater(s.frames, s.frames, sealed, sealed[a := s.frames[a].Keys]);
  }

  lemma AlikeBind(s: State, t: State, a: nat, x: string, v: Value, w: Value, m: bool, sealed: Sealed)
    requires AlikeState(s, t, sealed) && a < |s.frames| && (a !in sealed || x in s.frames[a])
    requires AlikeValue(v, w, s.frames[a := s.frames[a][x := Denoted(v, m)]], sealed)
    ensures AlikeState(s.(frames := s.frames[a := s.frames[a][x := Denoted(v, m)]]),
                       t.(frames := t.frames[a := t.frames[a][x := Denoted(w, m)]]), sealed)
  {
    hide AlikeValue, AlikeFrame;
    var later := s.frames[a := s.frames[a][x := Denoted(v, m)]];
    forall b | 0 <= b < |s.frames| ensures AlikeFrame(s.frames[b], t.frames[b], later, sealed) {
      FrameAlikeLater(s.frames[b], t.frames[b], s.frames, later, sealed, sealed);
    }
    FrameBinds(s.frames[a], t.frames[a], x, v, w, m, later, sealed);
  }

  lemma FrameAlikeLater(f: Frame, g: Frame, frames: seq<Frame>, later: seq<Frame>, sealed: Sealed, more: Sealed)
    requires AlikeFrame(f, g, frames, sealed) && Extends(frames, later) && Includes(more, sealed)
    ensures AlikeFrame(f, g, later, more)
  {
    hide AlikeValue;
    ValuesAlikeLater(frames, later, sealed, more);
  }

  lemma FrameBinds(f: Frame, g: Frame, x: string, v: Value, w: Value, m: bool, frames: seq<Frame>, sealed: Sealed)
    requires AlikeFrame(f, g, frames, sealed) && AlikeValue(v, w, frames, sealed)
    ensures AlikeFrame(f[x := Denoted(v, m)], g[x := Denoted(w, m)], frames, sealed)
  {
    hide AlikeValue;
  }

  lemma AlikeExtend(f: Frame, g: Frame, s: State, t: State, sealed: Sealed)
    requires AlikeState(s, t, sealed) && AlikeFrame(f, g, s.frames, sealed)
    ensures AlikeState(s.(frames := s.frames + [f]), t.(frames := t.frames + [g]), sealed)
  {
    hide AlikeValue;
    ValuesAlikeLater(s.frames, s.frames + [f], sealed, sealed);
  }

  /** The same new frame in front of two environments, for names it binds or that were alike before. */
  lemma AlikeEnclosed(env: Env, env': Env, names: set<string>, f: Frame, s: State, sealed: Sealed)
    requires AlikeEnv(env, env', names - f.Keys, s.frames, sealed) && AreSealed(s.frames, sealed)
    ensures var a, later := |s.frames|, s.frames + [f];
            AlikeEnv([a] + env, [a] + env', names, later, sealed) && SameHead([a] + env, [a] + env', later, sealed)
  {
    AlikeEnvLater(env, env', names - f.Keys, names - f.Keys, s.frames, s.frames + [f], sealed, sealed);
    assert FrameAt(s.frames + [f], |s.frames|) == f;
  }

  lemma {:induction false} AlikeResolve(s: State, t: State, env: Env, env': Env, names: set<string>, x: string,
                                        sealed: Sealed)
    requires AlikeState(s, t, sealed) && AlikeEnv(env, env', names, s.frames, sealed) && x in names
    ensures Resolve(s.frames, env, x) == Resolve(t.frames, env', x)
    decreases |env|
  {
    if env != [] {
      var keys := FrameAt(s.frames, env[0]).Keys;
      assert FrameAt(t.frames, env[0]).Keys == keys;
      if env' != [] && env[0] == env'[0] && AlikeEnv(env[1..], env'[1..], names - keys, s.frames, sealed) {
        if x !in keys { AlikeResolve(s, t, env[1..], env'[1..], names - keys, x, sealed); }
      } else {
        AlikeResolve(s, t, env[1..], env', names, x, sealed);
      }
    }
  }

  // ----- Builtins cannot tell -----

  lemma {:induction false} AlikeMakeFrame(ps: seq<string>, vs: seq<Value>, ws: seq<Value>, frames: seq<Frame>,
                                          sealed: Sealed)
    requires |ps| == |vs| && AlikeValues(vs, ws, frames, sealed)
    ensures AlikeFrame(MakeFrame(ps, vs), MakeFrame(ps, ws), frames, sealed)
  {
    hide AlikeValue;
    if ps != [] { AlikeMakeFrame(ps[..|ps| - 1], vs[..|ps| - 1], ws[..|ps| - 1], frames, sealed); }
  }

  lemma {:induction false} AlikeView(v: Value, w: Value, frames: seq<Frame>, sealed: Sealed)
    requires AlikeValue(v, w, frames, sealed)
    ensures ViewOf(v) == ViewOf(w)
    decreases v
  {
    if v.Pair? { AlikeView(v.head, w.head, frames, sealed); AlikeView(v.tail, w.tail, frames, sealed); }
  }

  lemma {:induction false} AlikeMakeList(vs: seq<Value>, ws: seq<Value>, next: nat, frames: seq<Frame>, sealed: Sealed)
    requires AlikeValues(vs, ws, frames, sealed)
    ensures MakeList(vs, next).1 == MakeList(ws, next).1
    ensures AlikeValue(MakeList(vs, next).0, MakeList(ws, next).0, frames, sealed)
  {
    if vs != [] { AlikeMakeList(vs[1..], ws[1..], next, frames, sealed); }
  }

  lemma AlikePrimitives(v: Value, w: Value, v': Value, w': Value, frames: seq<Frame>, sealed: Sealed)
    requires AlikeValue(v, w, frames, sealed) && AlikeValue(v', w', frames, sealed)
    ensures Truthy(v) == Truthy(w) && StrictEquals(v, v') == StrictEquals(w, w')
  {
    hide AlikeEnv;
  }

  lemma AlikeBuiltin(h: Host, f: string, vs: seq<Value>, ws: seq<Value>, s: State, t: State, sealed: Sealed)
    requires AlikeState(s, t, sealed) && AlikeValues(vs, ws, s.frames, sealed)
    ensures AlikeResult(ApplyBuiltin(h, f, vs, s), ApplyBuiltin(h, f, ws, t), sealed)
  {
    hide AlikeEnv, AlikeFrame, AreSealed;
    assert AlikeValue(Arg(vs, 0), Arg(ws, 0), s.frames, sealed) && AlikeValue(Arg(vs, 1), Arg(ws, 1), s.frames, sealed);
    AlikeMakeList(vs, ws, s.next, s.frames, sealed);
    AlikeView(Arg(vs, 0), Arg(ws, 0), s.frames, sealed);
    AlikeView(Arg(vs, 1), Arg(ws, 1), s.frames, sealed);
    AlikePrimitives(Arg(vs, 0), Arg(ws, 0), Arg(vs, 1), Arg(ws, 1), s.frames, sealed);
  }
}

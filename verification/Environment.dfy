/** Environments of the meta-circular evaluator.

    An environment is an immutable chain of mutable frames that closures share.  Frames live in a
    store indexed by address; a chain is the sequence of its addresses, innermost first.
 */
module Environment {
  import opened Options
  import opened Syntax

  /** Run-time values.  Lists and closures carry the identity that `===` compares. */
  datatype Value =
    | Undefined
    | P(p: Prim)
    | Nil(id: nat)
    | Pair(id: nat, head: Value, tail: Value)
    | Closure(id: nat, parameters: seq<string>, body: Node, env: Env)
    | Builtin(name: string)
    | ReturnValue(content: Value)

  type Env = seq<nat>

  datatype Denoted = Denoted(value: Value, mutable: bool)
  type Frame = map<string, Denoted>

  /** All frames ever made, and the next unused object identity. */
  datatype State = State(frames: seq<Frame>, next: nat)

  /** The frame at an address; an address outside the store reads as an empty frame. */
  function FrameAt(frames: seq<Frame>, a: nat): Frame {
    if a < |frames| then frames[a] else map[]
  }

  /** The address of the innermost frame of `env` that binds `x`. */
  function Resolve(frames: seq<Frame>, env: Env, x: string): (r: Option<nat>)
    ensures r.Some? ==> r.value in env && r.value < |frames| && x in frames[r.value]
  {
    if env == [] then None
    else if x in FrameAt(frames, env[0]) then Some(env[0])
    else Resolve(frames, env[1..], x)
  }

  function Lookup(frames: seq<Frame>, env: Env, x: string): Option<Value> {
    match Resolve(frames, env, x)
    case None => None
    case Some(a) => Some(frames[a][x].value)
  }

  /** Overwrites the value of the innermost binding; the `mutable` flag is kept and not consulted. */
  function Assign(frames: seq<Frame>, env: Env, x: string, v: Value): (r: Option<seq<Frame>>) {
    match Resolve(frames, env, x)
    case None => None
    case Some(a) => Some(frames[a := frames[a][x := Denoted(v, frames[a][x].mutable)]])
  }

  function Declare(frames: seq<Frame>, a: nat, x: string, v: Value, mutable: bool): seq<Frame> {
    if a < |frames| then frames[a := frames[a][x := Denoted(v, mutable)]] else frames
  }

  /** Binds parameters to arguments left to right; a repeated parameter takes its last argument. */
  function MakeFrame(ps: seq<string>, vs: seq<Value>): (f: Frame)
    requires |ps| == |vs|
    ensures forall x :: x in f <==> x in ps
    ensures forall x | x in f :: exists i :: 0 <= i < |ps| && ps[i] == x && f[x] == Denoted(vs[i], true)
  {
    if ps == [] then map[]
    else
      var n := |ps| - 1;
      var f := MakeFrame(ps[..n], vs[..n]);
      assert ps == ps[..n] + [ps[n]];
      assert forall x | x in f && x != ps[n] ::
          exists i :: 0 <= i < n && ps[..n][i] == x && f[x] == Denoted(vs[..n][i], true);
      f[ps[n] := Denoted(vs[n], true)]
  }

  /** A new frame binds the parameters and nothing else, each to the argument in its last position. */
  lemma {:induction false} MakeFrameBindsLast(ps: seq<string>, vs: seq<Value>, i: nat)
    requires |ps| == |vs| && i < |ps| && ps[i] !in ps[i + 1..]
    ensures MakeFrame(ps, vs).Keys == (set x | x in ps) && MakeFrame(ps, vs)[ps[i]] == Denoted(vs[i], true)
  {
    var n := |ps| - 1;
    if i < n {
      assert ps[i + 1..] == ps[..n][i + 1..] + [ps[n]];
      MakeFrameBindsLast(ps[..n], vs[..n], i);
    }
  }

  /** Later frames stores keep every frame and every binding of earlier ones. */
  ghost predicate Extends(frames: seq<Frame>, frames': seq<Frame>) {
    |frames| <= |frames'| && forall a | 0 <= a < |frames| :: frames[a].Keys <= frames'[a].Keys
  }

  // ----- Store laws -----

  /** Assignment leaves the shape of the store alone: every name resolves as before, everywhere. */
  lemma {:induction false} AssignKeepsResolution(frames: seq<Frame>, env: Env, x: string, v: Value, env': Env,
                                                 y: string)
    requires Resolve(frames, env, x).Some?
    ensures Resolve(Assign(frames, env, x, v).value, env', y) == Resolve(frames, env', y)
  {
    if env' != [] {
      AssignKeepsResolution(frames, env, x, v, env'[1..], y);
    }
  }

  /** Which environments see an assignment made through `env`: exactly those that resolve the name
      to the same frame, besides those that saw the value already. */
  lemma AssignUnderAliasing(frames: seq<Frame>, env: Env, x: string, v: Value, env': Env, y: string)
    requires Resolve(frames, env, x).Some?
    ensures var after := Assign(frames, env, x, v).value;
            && Extends(frames, after) && |after| == |frames|
            && (Lookup(after, env', x) == Some(v) <==>
                Resolve(frames, env', x) == Resolve(frames, env, x) || Lookup(frames, env', x) == Some(v))
            && (Resolve(frames, env', x) != Resolve(frames, env, x) ==>
               Lookup(after, env', x) == Lookup(frames, env', x))
            && (y != x ==> Lookup(after, env', y) == Lookup(frames, env', y))
  {
    AssignKeepsResolution(frames, env, x, v, env', x);
    AssignKeepsResolution(frames, env, x, v, env', y);
  }

  /** A declaration shadows: it is visible through `env` at once, and it can only change what
      another environment sees of that name when that environment contains the same frame. */
  lemma {:induction false} DeclareIsLocal(frames: seq<Frame>, a: nat, x: string, v: Value, m: bool, env': Env,
                                          y: string)
    requires a < |frames|
    ensures var after := Declare(frames, a, x, v, m);
            && Extends(frames, after)
            && (env' != [] && env'[0] == a ==> Lookup(after, env', x) == Some(v))
            && (y != x || a !in env' ==> Resolve(after, env', y) == Resolve(frames, env', y)
                                          && Lookup(after, env', y) == Lookup(frames, env', y))
  {
    if env' != [] {
      DeclareIsLocal(frames, a, x, v, m, env'[1..], y);
    }
  }
}

/** What a call yields: what its body returns when run in one new frame, with each parameter bound to its argument. */
module Calls {
  import opened Syntax
  import opened Environment
  import opened Evaluator
  import opened Semantics
  import ForLoop

  /** Nodes evaluated from left to right, each in the store that the one before it left. */
  ghost predicate GiveAll(h: Host, es: seq<Node>, env: Env, st: State, vs: seq<Value>, st': State) {
    if es == [] then vs == [] && st' == st
    else
      vs != [] && exists st1 :: Gives(h, es[0], env, st, Ok(vs[0], st1)) && GiveAll(h, es[1..], env, st1, vs[1..], st')
  }

  /** There is one answer. */
  lemma GivesOne(h: Host, n: Node, env: Env, st: State, r: Result<Value>, q: Result<Value>)
    requires Gives(h, n, env, st, r) && Gives(h, n, env, st, q)
    ensures r == q
  {
    hide Eval;
    var k: nat :| Eval(h, n, env, st, k) == r;
    var m: nat :| Eval(h, n, env, st, m) == q;
    if k <= m { ForLoop.EvalIsMonotone(h, n, env, st, k, m); } else { ForLoop.EvalIsMonotone(h, n, env, st, m, k); }
  }

  lemma {:induction false} AllAreListed(h: Host, es: seq<Node>, env: Env, st: State, vs: seq<Value>, st': State)
    returns (k: nat)
    requires GiveAll(h, es, env, st, vs, st')
    ensures ListOfValues(h, es, env, st, k) == Ok(vs, st') && |vs| == |es|
  {
    hide Eval, Gives;
    if es == [] {
      k := 1;
    } else {
      var st1 :| Gives(h, es[0], env, st, Ok(vs[0], st1)) && GiveAll(h, es[1..], env, st1, vs[1..], st');
      var m := AllAreListed(h, es[1..], env, st1, vs[1..], st');
      var j := GivenAt(h, es[0], env, st, Ok(vs[0], st1));
      k := m + j;
      ForLoop.EvalIsMonotone(h, es[0], env, st, j, k);
      ForLoop.ValuesAreMonotone(h, es[1..], env, st1, m, k);
      assert [vs[0]] + vs[1..] == vs;
      k := k + 1;
    }
  }

  lemma GivenAt(h: Host, n: Node, env: Env, st: State, r: Result<Value>) returns (k: nat)
    requires Gives(h, n, env, st, r)
    ensures Eval(h, n, env, st, k) == r && Answers(r)
  {
    hide Eval;
    k :| Eval(h, n, env, st, k) == r;
  }

  /** What is made of the outcome of a body. */
  function Returned(r: Result<Value>): Result<Value> {
    if r.Fail? then r else Ok(if r.value.ReturnValue? then r.value.content else Undefined, r.st)
  }

  /** A call from some fuel on. */
  lemma CallIs(h: Host, f: Node, es: seq<Node>, env: Env, st: State, c: Value, st1: State, vs: seq<Value>, st2: State,
               frame: Frame) returns (m: nat)
    requires c.Closure? && Gives(h, f, env, st, Ok(c, st1)) && GiveAll(h, es, env, st1, vs, st2)
    requires IsFrameOf(frame, c.parameters, vs)
    ensures forall k: nat | k >= m ::
              Eval(h, Application(f, es), env, st, k + 2) ==
              Returned(Eval(h, c.body, Inner(st2, c.env), Within(st2, frame), k))
  {
    assert |c.parameters| == |vs|;
    hide Eval, ListOfValues, Gives, GiveAll, IsFrameOf, Apply;
    var j := GivenAt(h, f, env, st, Ok(c, st1));
    var l := AllAreListed(h, es, env, st1, vs, st2);
    m := j + l;
    FrameIs(frame, c.parameters, vs);
    forall k: nat | k >= m
      ensures Eval(h, Application(f, es), env, st, k + 2) ==
              Returned(Eval(h, c.body, Inner(st2, c.env), Within(st2, frame), k))
    {
      ForLoop.EvalIsMonotone(h, f, env, st, j, k + 1);
      ForLoop.ValuesAreMonotone(h, es, env, st1, l, k + 1);
      ApplicationUnfolds(h, f, es, env, st, k + 2);
      ApplyUnfolds(h, c, vs, st2, k + 1);
    }
  }

  lemma ApplicationUnfolds(h: Host, f: Node, es: seq<Node>, env: Env, st: State, k: nat)
    requires k > 0
    ensures var q := Eval(h, f, env, st, k - 1);
            Eval(h, Application(f, es), env, st, k) ==
              if q.Fail? then q
              else
                var vs := ListOfValues(h, es, env, q.st, k - 1);
                if vs.Fail? then Fail(vs.error, vs.st) else Apply(h, q.value, vs.value, vs.st, k - 1)
  {
    hide ListOfValues, Apply;
    assert Eval(h, Application(f, es), env, st, k) == EvalApplication(h, f, es, env, st, k);
  }

  lemma ApplyUnfolds(h: Host, c: Value, vs: seq<Value>, st: State, k: nat)
    requires k > 0 && c.Closure? && |c.parameters| == |vs|
    ensures Apply(h, c, vs, st, k) ==
            Returned(Eval(h, c.body, Inner(st, c.env), Within(st, MakeFrame(c.parameters, vs)), k - 1))
  {
    hide Eval;
  }

  /** A call answers `v` if and only if the body returns `v`, or `v` is undefined and the body ends without a return;
      it fails if and only if the body does. */
  lemma CallLaw(h: Host, f: Node, es: seq<Node>, env: Env, st: State, c: Value, st1: State, vs: seq<Value>, st2: State,
                frame: Frame, r: Result<Value>)
    requires c.Closure? && Gives(h, f, env, st, Ok(c, st1)) && GiveAll(h, es, env, st1, vs, st2)
    requires IsFrameOf(frame, c.parameters, vs)
    ensures Gives(h, Application(f, es), env, st, r) <==>
            match r
            case Fail(_, _) => Gives(h, c.body, Inner(st2, c.env), Within(st2, frame), r)
            case Ok(v, st') =>
              Gives(h, c.body, Inner(st2, c.env), Within(st2, frame), Ok(ReturnValue(v), st')) ||
              (v == Undefined &&
               exists w: Value :: !w.ReturnValue? && Gives(h, c.body, Inner(st2, c.env), Within(st2, frame),
                   Ok(w, st')))
  {
    hide Eval, GiveAll, IsFrameOf, Gives;
    var m := CallIs(h, f, es, env, st, c, st1, vs, st2, frame);
    var env', st' := Inner(st2, c.env), Within(st2, frame);
    var call := Application(f, es);
    if Gives(h, call, env, st, r) {
      var k := GivenAt(h, call, env, st, r);
      ForLoop.EvalIsMonotone(h, call, env, st, k, k + m + 2);
      var q := Eval(h, c.body, env', st', k + m);
      assert Returned(q) == r && Answers(q);
      IsGiven(h, c.body, env', st', q, k + m);
    }
    forall q | Gives(h, c.body, env', st', q) ensures Gives(h, call, env, st, Returned(q)) {
      var k := GivenAt(h, c.body, env', st', q);
      ForLoop.EvalIsMonotone(h, c.body, env', st', k, k + m);
      IsGiven(h, call, env, st, Returned(q), k + m + 2);
    }
  }

  lemma IsGiven(h: Host, n: Node, env: Env, st: State, r: Result<Value>, k: nat)
    requires Eval(h, n, env, st, k) == r && Answers(r)
    ensures Gives(h, n, env, st, r)
  {
    hide Eval;
  }
}

/** The rewriting of a for loop into a block, a while loop and a longer body keeps its meaning. */
module ForLoop {
  import opened Syntax
  import opened Environment
  import opened Evaluator
  import opened Confinement

  predicate Exhausted<T>(r: Result<T>) {
    r.Fail? && r.error == OutOfFuel
  }

  // ----- More fuel never changes an answer -----

  lemma {:induction false} EvalIsMonotone(h: Host, n: Node, env: Env, st: State, k: nat, k': nat)
    requires k <= k' && !Exhausted(Eval(h, n, env, st, k))
    ensures Eval(h, n, env, st, k') == Eval(h, n, env, st, k)
    decreases k, 1
  {
    hide EvalSequence, ListOfValues, Apply, EvalWhile, EvalConditional, EvalBoolean, EvalApplication;
    match n
    case ConstDecl(_, e) => EvalIsMonotone(h, e, env, st, k - 1, k' - 1);
    case VarDecl(_, e) => EvalIsMonotone(h, e, env, st, k - 1, k' - 1);
    case Assignment(_, e) => EvalIsMonotone(h, e, env, st, k - 1, k' - 1);
    case Return(e) => EvalIsMonotone(h, e, env, st, k - 1, k' - 1);
    case Block(b) =>
      var (env1, st1) := Extend(map[], env, st);
      EvalIsMonotone(h, b, env1, st1, k - 1, k' - 1);
    case Sequence(ss) => SequenceIsMonotone(h, ss, env, st, k - 1, k' - 1);
    case While(p, b) => WhileIsMonotone(h, p, b, env, st, k - 1, k' - 1, Eval(h, n, env, st, k),
        Eval(h, n, env, st, k'));
    case For(i, p, f, b) => EvalIsMonotone(h, ForBlock(i, p, f, b), env, st, k - 1, k' - 1);
    case CondStmt(p, c, a) => ConditionalIsMonotone(h, p, c, a, env, st, k, k', Eval(h, n, env, st, k),
        Eval(h, n, env, st, k'));
    case CondExpr(p, c, a) => ConditionalIsMonotone(h, p, c, a, env, st, k, k', Eval(h, n, env, st, k),
        Eval(h, n, env, st, k'));
    case BoolOp(op, l, r) => BooleanIsMonotone(h, op, l, r, env, st, k, k', Eval(h, n, env, st, k),
        Eval(h, n, env, st, k'));
    case Application(f, es) => ApplicationIsMonotone(h, f, es, env, st, k, k');
    case _ =>
  }

  lemma {:induction false} ConditionalIsMonotone(h: Host, p: Node, c: Node, a: Node, env: Env, st: State, k: nat,
                                                 k': nat, r1: Result<Value>, r2: Result<Value>)
    requires 0 < k <= k' && !Exhausted(r1)
    requires r1 == EvalConditional(h, p, c, a, env, st, k) && r2 == EvalConditional(h, p, c, a, env, st, k')
    ensures r1 == r2
    decreases k, 0
  {
    hide Eval;
    EvalIsMonotone(h, p, env, st, k - 1, k' - 1);
    var t := Eval(h, p, env, st, k - 1);
    if t.Ok? { EvalIsMonotone(h, if t.value == True then c else a, env, t.st, k - 1, k' - 1); }
  }

  lemma {:induction false} BooleanIsMonotone(h: Host, op: string, left: Node, right: Node, env: Env, st: State, k: nat,
                                             k': nat, r1: Result<Value>, r2: Result<Value>)
    requires 0 < k <= k' && !Exhausted(r1)
    requires r1 == EvalBoolean(h, op, left, right, env, st, k) && r2 == EvalBoolean(h, op, left, right, env, st, k')
    ensures r1 == r2
    decreases k, 0
  {
    hide Eval;
    EvalIsMonotone(h, left, env, st, k - 1, k' - 1);
    var t := Eval(h, left, env, st, k - 1);
    if t.Ok? && (op == "&&" <==> t.value == True) { EvalIsMonotone(h, right, env, t.st, k - 1, k' - 1); }
  }

  lemma {:induction false} ApplicationIsMonotone(h: Host, f: Node, es: seq<Node>, env: Env, st: State, k: nat, k': nat)
    requires 0 < k <= k' && !Exhausted(EvalApplication(h, f, es, env, st, k))
    ensures EvalApplication(h, f, es, env, st, k') == EvalApplication(h, f, es, env, st, k)
    decreases k, 0
  {
    hide Eval, ListOfValues, Apply;
    EvalIsMonotone(h, f, env, st, k - 1, k' - 1);
    var r := Eval(h, f, env, st, k - 1);
    if r.Ok? {
      ValuesAreMonotone(h, es, env, r.st, k - 1, k' - 1);
      var vs := ListOfValues(h, es, env, r.st, k - 1);
      if vs.Ok? { ApplyIsMonotone(h, r.value, vs.value, vs.st, k - 1, k' - 1); }
    }
  }

  lemma {:induction false} SequenceIsMonotone(h: Host, ss: seq<Node>, env: Env, st: State, k: nat, k': nat)
    requires k <= k' && !Exhausted(EvalSequence(h, ss, env, st, k))
    ensures EvalSequence(h, ss, env, st, k') == EvalSequence(h, ss, env, st, k)
    decreases k, 0
  {
    hide Eval;
    if ss != [] {
      EvalIsMonotone(h, ss[0], env, st, k - 1, k' - 1);
      var r := Eval(h, ss[0], env, st, k - 1);
      if |ss| > 1 && r.Ok? && !r.value.ReturnValue? { SequenceIsMonotone(h, ss[1..], env, r.st, k - 1, k' - 1); }
    }
  }

  lemma {:induction false} ValuesAreMonotone(h: Host, es: seq<Node>, env: Env, st: State, k: nat, k': nat)
    requires k <= k' && !Exhausted(ListOfValues(h, es, env, st, k))
    ensures ListOfValues(h, es, env, st, k') == ListOfValues(h, es, env, st, k)
    decreases k, 0
  {
    hide Eval;
    if es != [] {
      EvalIsMonotone(h, es[0], env, st, k - 1, k' - 1);
      var r := Eval(h, es[0], env, st, k - 1);
      if r.Ok? { ValuesAreMonotone(h, es[1..], env, r.st, k - 1, k' - 1); }
    }
  }

  lemma {:induction false} ApplyIsMonotone(h: Host, f: Value, args: seq<Value>, st: State, k: nat, k': nat)
    requires k <= k' && !Exhausted(Apply(h, f, args, st, k))
    ensures Apply(h, f, args, st, k') == Apply(h, f, args, st, k)
    decreases k, 0
  {
    hide Eval;
    if f.Closure? && |f.parameters| == |args| {
      var (env1, st1) := Extend(MakeFrame(f.parameters, args), f.env, st);
      EvalIsMonotone(h, f.body, env1, st1, k - 1, k' - 1);
    }
  }

  lemma {:induction false} WhileIsMonotone(h: Host, p: Node, b: Node, env: Env, st: State, k: nat, k': nat,
                                           r1: Result<Value>, r2: Result<Value>)
    requires k <= k' && !Exhausted(r1)
    requires r1 == EvalWhile(h, p, b, env, st, k) && r2 == EvalWhile(h, p, b, env, st, k')
    ensures r1 == r2
    decreases k, 0
  {
    hide Eval, EvalWhile, Truthy;
    OneIteration(h, p, b, env, st, k);
    OneIteration(h, p, b, env, st, k');
    EvalIsMonotone(h, p, env, st, k - 1, k' - 1);
    var t := Eval(h, p, env, st, k - 1);
    if t.Ok? && Truthy(t.value) {
      EvalIsMonotone(h, b, env, t.st, k - 1, k' - 1);
      var u := Eval(h, b, env, t.st, k - 1);
      if u.Ok? { WhileIsMonotone(h, p, b, env, u.st, k - 1, k' - 1, r1, r2); }
    }
  }

  lemma OneIteration(h: Host, p: Node, b: Node, env: Env, st: State, k: nat)
    ensures k == 0 ==> Exhausted(EvalWhile(h, p, b, env, st, k))
    ensures k > 0 ==>
              var t := Eval(h, p, env, st, k - 1);
              var u := Eval(h, b, env, t.st, k - 1);
              EvalWhile(h, p, b, env, st, k) ==
                if t.Fail? then t
                else if !Truthy(t.value) then Ok(True, t.st)
                else if u.Fail? then u
                else EvalWhile(h, p, b, env, u.st, k - 1)
  {
    hide Eval, Truthy;
  }

  // ----- The loop a reader of the program has in mind -----

  /** A new frame for the initialiser, then iterations. */
  function DirectFor(h: Host, init: Node, p: Node, fin: Node, body: seq<Node>, env: Env, st: State, k: nat)
    : Result<Value>
  {
    var (env1, st1) := Extend(map[], env, st);
    var (_, st2) :- Eval(h, init, env1, st1, k);
    Iterate(h, p, fin, body, env1, st2, k)
  }

  /** One iteration: test; a fresh frame; the body in it; then, unless the body returned, the
      finaliser in that same frame.  What the body returns is dropped and the loop goes on. */
  function Iterate(h: Host, p: Node, fin: Node, body: seq<Node>, env: Env, st: State, k: nat): Result<Value>
    decreases k
  {
    if k == 0 then Fail(OutOfFuel, st)
    else
      var (v, st1) :- Eval(h, p, env, st, k - 1);
      if !Truthy(v) then Ok(True, st1)
      else
        var (env2, st2) := Extend(map[], env, st1);
        var (returned, st3) :- RunBody(h, body, env2, st2, k - 1);
        if returned then Iterate(h, p, fin, body, env, st3, k - 1)
        else
          var (_, st4) :- Eval(h, fin, env2, st3, k - 1);
          Iterate(h, p, fin, body, env, st4, k - 1)
  }

  /** Runs the body, which may be empty, and says whether it returned. */
  function RunBody(h: Host, body: seq<Node>, env: Env, st: State, k: nat): Result<bool> {
    if body == [] then Ok(false, st)
    else
      var (v, st1) :- EvalSequence(h, body, env, st, k);
      Ok(v.ReturnValue?, st1)
  }

  /** The body with the finaliser appended, as one result. */
  function BodyThenFinaliser(h: Host, fin: Node, body: seq<Node>, env: Env, st: State, k: nat): Result<()> {
    var (returned, st1) :- RunBody(h, body, env, st, k);
    if returned then Ok((), st1)
    else
      var (_, st2) :- Eval(h, fin, env, st1, k);
      Ok((), st2)
  }

  function Forget(r: Result<Value>): Result<()> {
    var (_, st) :- r;
    Ok((), st)
  }

  /** An answer of the appended sequence is the answer of body then finaliser. */
  lemma {:induction false} SequenceSplits(h: Host, fin: Node, body: seq<Node>, env: Env, st: State, k: nat)
    requires !Exhausted(EvalSequence(h, body + [fin], env, st, k))
    ensures BodyThenFinaliser(h, fin, body, env, st, k) == Forget(EvalSequence(h, body + [fin], env, st, k))
    decreases k
  {
    hide Eval;
    if body == [] {
      assert body + [fin] == [fin];
      EvalIsMonotone(h, fin, env, st, k - 1, k);
    } else {
      assert (body + [fin])[1..] == body[1..] + [fin];
      var r := Eval(h, body[0], env, st, k - 1);
      if r.Ok? && !r.value.ReturnValue? {
        SequenceSplits(h, fin, body[1..], env, r.st, k - 1);
        var r1 := RunBody(h, body[1..], env, r.st, k - 1);
        if r1.Ok? && !r1.value { EvalIsMonotone(h, fin, env, r1.st, k - 1, k); }
      }
    }
  }

  /** And the other way round, with fuel for the longer sequence. */
  lemma {:induction false} SequenceJoins(h: Host, fin: Node, body: seq<Node>, env: Env, st: State, k: nat, k': nat)
    requires k + |body| < k' && !Exhausted(BodyThenFinaliser(h, fin, body, env, st, k))
    ensures Forget(EvalSequence(h, body + [fin], env, st, k')) == BodyThenFinaliser(h, fin, body, env, st, k)
    decreases |body|
  {
    hide Eval;
    if body == [] {
      assert body + [fin] == [fin];
      EvalIsMonotone(h, fin, env, st, k, k' - 1);
    } else {
      assert (body + [fin])[1..] == body[1..] + [fin];
      assert k > 0;
      EvalIsMonotone(h, body[0], env, st, k - 1, k' - 1);
      var r := Eval(h, body[0], env, st, k - 1);
      if r.Ok? && !r.value.ReturnValue? {
        if |body| > 1 { SequenceIsMonotone(h, body[1..], env, r.st, k - 1, k); }
        SequenceJoins(h, fin, body[1..], env, r.st, k, k' - 1);
      }
    }
  }

  /** The rewritten loop's answer is the direct loop's. */
  lemma {:induction false} WhileIsIterate(h: Host, p: Node, fin: Node, body: seq<Node>, env: Env, st: State, k: nat)
    requires !Exhausted(EvalWhile(h, p, Block(Sequence(body + [fin])), env, st, k))
    ensures Iterate(h, p, fin, body, env, st, k) == EvalWhile(h, p, Block(Sequence(body + [fin])), env, st, k)
    decreases k
  {
    hide Eval, Truthy, EvalSequence;
    var r := Eval(h, p, env, st, k - 1);
    if r.Ok? && Truthy(r.value) {
      var (env2, st2) := Extend(map[], env, r.st);
      BlockUnfolds(h, body + [fin], env, r.st, k - 1);
      SequenceIsMonotone(h, body + [fin], env2, st2, k - 3, k - 1);
      SequenceSplits(h, fin, body, env2, st2, k - 1);
      var s := EvalSequence(h, body + [fin], env2, st2, k - 3);
      if s.Ok? { WhileIsIterate(h, p, fin, body, env, s.st, k - 1); }
    }
  }

  lemma BlockUnfolds(h: Host, ss: seq<Node>, env: Env, st: State, k: nat)
    ensures k < 3 ==> Exhausted(Eval(h, Block(Sequence(ss)), env, st, k))
    ensures k >= 2 ==> var (env1, st1) := Extend(map[], env, st);
                       Eval(h, Block(Sequence(ss)), env, st, k) == EvalSequence(h, ss, env1, st1, k - 2)
  {
    hide ListOfValues, Apply, EvalWhile, EvalDeclaration, EvalConditional, EvalBoolean, EvalApplication, EvalAssignment;
    var (env1, st1) := Extend(map[], env, st);
    if k > 0 {
      assert Eval(h, Block(Sequence(ss)), env, st, k) == Eval(h, Sequence(ss), env1, st1, k - 1);
      assert Exhausted(EvalSequence(h, ss, env1, st1, 0));
    }
  }

  lemma {:induction false} IterateIsWhile(h: Host, p: Node, fin: Node, body: seq<Node>, env: Env, st: State, k: nat,
                                          k': nat)
    requires k + |body| + 4 <= k' && !Exhausted(Iterate(h, p, fin, body, env, st, k))
    ensures EvalWhile(h, p, Block(Sequence(body + [fin])), env, st, k') == Iterate(h, p, fin, body, env, st, k)
    decreases k
  {
    hide Eval, Truthy, EvalSequence, RunBody;
    EvalIsMonotone(h, p, env, st, k - 1, k' - 1);
    var r := Eval(h, p, env, st, k - 1);
    if r.Ok? && Truthy(r.value) {
      var (env2, st2) := Extend(map[], env, r.st);
      SequenceJoins(h, fin, body, env2, st2, k - 1, k' - 3);
      BlockUnfolds(h, body + [fin], env, r.st, k' - 1);
      var s := BodyThenFinaliser(h, fin, body, env2, st2, k - 1);
      if s.Ok? { IterateIsWhile(h, p, fin, body, env, s.st, k - 1, k' - 1); }
    }
  }

  /** What a for loop needs of its context: it is one the grammar builds and the store is good. */
  ghost predicate Proper(init: Node, p: Node, fin: Node, body: seq<Node>, env: Env, st: State) {
    Ready(env, st) && IsStmt(For(init, p, fin, body))
  }

  lemma InitialiserYieldsNoReturn(h: Host, init: Node, p: Node, fin: Node, body: seq<Node>, env: Env, st: State, k: nat)
    requires Proper(init, p, fin, body, env, st)
    ensures var (env1, st1) := Extend(map[], env, st);
            var r := Eval(h, init, env1, st1, k);
            r.Ok? ==> !r.value.ReturnValue?
  {
    hide EvalSequence, ListOfValues, Apply, EvalWhile, EvalConditional, EvalBoolean, EvalApplication;
    ExtendIsGood(map[], env, st);
    var (env1, st1) := Extend(map[], env, st);
    if k > 0 && init.Assignment? {
      assert IsExpr(init.value) by { assert IsStmt(init); }
      EvalIsGood(h, init.value, env1, st1, k - 1);
    }
  }

  /** What evaluating a for loop comes to. */
  lemma ForUnfolds(h: Host, init: Node, p: Node, fin: Node, body: seq<Node>, env: Env, st: State, k: nat)
    requires Proper(init, p, fin, body, env, st)
    ensures k < 5 ==> Exhausted(Eval(h, For(init, p, fin, body), env, st, k))
    ensures k >= 5 ==>
              var (env1, st1) := Extend(map[], env, st);
              var r := Eval(h, init, env1, st1, k - 4);
              Eval(h, For(init, p, fin, body), env, st, k) ==
                if r.Fail? then r
                else if k == 5 then Fail(OutOfFuel, r.st)
                else EvalWhile(h, p, Block(Sequence(body + [fin])), env1, r.st, k - 6)
  {
    var loop := While(p, Block(Sequence(body + [fin])));
    var (env1, st1) := Extend(map[], env, st);
    ForRewrites(h, init, p, fin, body, env, st, k);
    if k > 0 { BlockUnfolds(h, [init, loop], env, st, k - 1); }
    if k >= 5 {
      InitialiserYieldsNoReturn(h, init, p, fin, body, env, st, k - 4);
      TwoStatements(h, init, loop, env1, st1, k - 3);
      WhileUnfolds(h, p, loop.statements, env1, Eval(h, init, env1, st1, k - 4).st, k - 5);
    } else if k == 4 {
      TwoStatements(h, init, loop, env1, st1, 1);
    }
    hide Eval, EvalSequence, EvalWhile, IsStmt, Proper;
  }

  lemma ForRewrites(h: Host, init: Node, p: Node, fin: Node, body: seq<Node>, env: Env, st: State, k: nat)
    ensures Eval(h, For(init, p, fin, body), env, st, k) ==
            if k == 0 then Fail(OutOfFuel, st)
            else Eval(h, Block(Sequence([init, While(p, Block(Sequence(body + [fin])))])), env, st, k - 1)
  {
    hide EvalSequence, ListOfValues, Apply, EvalWhile, EvalDeclaration, EvalConditional, EvalBoolean, EvalApplication,
         EvalAssignment;
  }

  lemma TwoStatements(h: Host, a: Node, b: Node, env: Env, st: State, k: nat)
    requires k > 0
    ensures var r := Eval(h, a, env, st, k - 1);
            EvalSequence(h, [a, b], env, st, k) ==
              if r.Fail? || r.value.ReturnValue? then r
              else if k == 1 then Fail(OutOfFuel, r.st)
              else Eval(h, b, env, r.st, k - 2)
  {
    hide Eval;
    assert [a, b][1..] == [b];
    var r := Eval(h, a, env, st, k - 1);
    assert r.Ok? && k > 1 ==> EvalSequence(h, [b], env, r.st, k - 1) == Eval(h, b, env, r.st, k - 2);
  }

  lemma WhileUnfolds(h: Host, p: Node, b: Node, env: Env, st: State, k: nat)
    ensures Eval(h, While(p, b), env, st, k) ==
        if k == 0 then Fail(OutOfFuel, st) else EvalWhile(h, p, b, env, st, k - 1)
  {
    hide EvalSequence, ListOfValues, Apply, EvalWhile, EvalDeclaration, EvalConditional, EvalBoolean, EvalApplication,
         EvalAssignment;
  }

  lemma ForIsDirect(h: Host, init: Node, p: Node, fin: Node, body: seq<Node>, env: Env, st: State, k: nat)
    requires Proper(init, p, fin, body, env, st) && !Exhausted(Eval(h, For(init, p, fin, body), env, st, k))
    ensures DirectFor(h, init, p, fin, body, env, st, k) == Eval(h, For(init, p, fin, body), env, st, k)
  {
    hide Eval, EvalWhile, Iterate, Proper;
    ForUnfolds(h, init, p, fin, body, env, st, k);
    var (env1, st1) := Extend(map[], env, st);
    EvalIsMonotone(h, init, env1, st1, k - 4, k);
    var r := Eval(h, init, env1, st1, k - 4);
    if r.Ok? {
      var b := Block(Sequence(body + [fin]));
      WhileIsMonotone(h, p, b, env1, r.st, k - 6, k, EvalWhile(h, p, b, env1, r.st, k - 6),
          EvalWhile(h, p, b, env1, r.st, k));
      WhileIsIterate(h, p, fin, body, env1, r.st, k);
    }
  }

  lemma DirectIsFor(h: Host, init: Node, p: Node, fin: Node, body: seq<Node>, env: Env, st: State, k: nat)
    requires Proper(init, p, fin, body, env, st) && !Exhausted(DirectFor(h, init, p, fin, body, env, st, k))
    ensures Eval(h, For(init, p, fin, body), env, st, k + |body| + 10) == DirectFor(h, init, p, fin, body, env, st, k)
  {
    hide Eval, EvalWhile, Iterate, Proper;
    var k' := k + |body| + 10;
    ForUnfolds(h, init, p, fin, body, env, st, k');
    var (env1, st1) := Extend(map[], env, st);
    EvalIsMonotone(h, init, env1, st1, k, k' - 4);
    var r := Eval(h, init, env1, st1, k);
    if r.Ok? { IterateIsWhile(h, p, fin, body, env1, r.st, k, k' - 6); }
  }

  /** Desugaring keeps meaning: a for loop answers `r`, store included, exactly when the direct loop
      does.  Errors thrown along the way are answers too. */
  lemma DesugaringIsDirect(h: Host, init: Node, p: Node, fin: Node, body: seq<Node>, env: Env, st: State,
                           r: Result<Value>)
    requires Proper(init, p, fin, body, env, st) && !Exhausted(r)
    ensures (exists k :: Eval(h, For(init, p, fin, body), env, st, k) == r) <==>
            (exists k :: DirectFor(h, init, p, fin, body, env, st, k) == r)
  {
    if k :| Eval(h, For(init, p, fin, body), env, st, k) == r {
      ForIsDirect(h, init, p, fin, body, env, st, k);
    }
    if k :| DirectFor(h, init, p, fin, body, env, st, k) == r {
      DirectIsFor(h, init, p, fin, body, env, st, k);
    }
  }
}

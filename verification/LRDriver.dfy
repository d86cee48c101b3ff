/** The driver as the original writes it: one loop that updates three stacks. */
module LRDriver {
  import opened Options
  import opened LRParser

  lemma RunUnfolds<V(!new)>(t: Table<V>, m: Certificate, c: Config<V>)
    requires Valid(t, m) && Inv(t, c)
    ensures var r := Step(t, c);
            && (r.SyntaxError? ==> Run(t, m, c) == None)
            && (r.Return? ==> Run(t, m, c) == Some(r.value))
            && (r.Continue? ==> Inv(t, r.next) && Run(t, m, c) == Run(t, m, r.next) && Descends(m, c, r.next))
  {
    StepKeeps(t, m, c);
  }

  lemma StartIsLinked<V(!new)>(t: Table<V>, input: seq<Token>)
    ensures Inv(t, Start(t, input))
  {
  }

  lemma ErrorStops<V>(t: Table<V>, c: Config<V>)
    requires InStep(c) && ActionOf(t, c) == Error
    ensures Step(t, c) == SyntaxError
  {
  }

  lemma StaysInStep<V(!new)>(t: Table<V>, c: Config<V>)
    requires Inv(t, c)
    ensures InStep(c)
  {
  }

  /** The three stacks, updated in place. */
  class Stacks<V(!new)> {
    var oe: seq<nat>   // states and symbols
    var ue: seq<V>     // values
    var fe: seq<Loc>   // locations

    constructor (nothing: V)
      ensures oe == [0] && ue == [nothing] && fe == [START_LOC]
    {
      oe, ue, fe := [0], [nothing], [START_LOC];
    }

    /** What the stacks stand for, with `rest` still to be read after `last`. */
    ghost function Abs(rest: seq<Token>, last: Token): Config<V>
      reads this
    {
      Config(oe, ue, fe, rest, last)
    }

    method Push(symbol: nat, state: nat, value: V, place: Loc)
      modifies this
      ensures forall rest, last :: Abs(rest, last) == LRParser.Push(old(Abs(rest, last)), symbol, state, value, place)
    {
      oe, ue, fe := oe + [symbol, state], ue + [value], fe + [place];
    }

    method Pop(n: nat)
      requires InStep(Abs([], NO_TOKEN)) && n < |ue|
      modifies this
      ensures forall rest, last :: Abs(rest, last) == LRParser.Pop(old(Abs(rest, last)), n)
    {
      oe, ue, fe := oe[..|oe| - 2 * n], ue[..|ue| - n], fe[..|fe| - n];
    }

    /** Runs the semantic action, pops the right-hand side and pushes the left.  `done` when there is
        nothing to go on with: the accepting action's value, or no goto. */
    method Reduce(t: Table<V>, p: nat, ghost rest: seq<Token>, last: Token) returns (done: bool, result: Option<V>)
      requires var c := Abs(rest, last);
               InStep(c) && ActionOf(t, c) == Action.Reduce(p) && p < |t.productions| && |t.productions[p].rhs| < |ue|
      modifies this
      ensures match Step(t, old(Abs(rest, last)))
              case SyntaxError => done && result == None
              case Return(v) => done && result == Some(v)
              case Continue(c) => !done && Abs(rest, last) == c
    {
      hide Step, ActionOf, Span;
      ReduceSteps(t, Abs(rest, last), p);
      var n := |t.productions[p].rhs|;
      var values, places := ue[|ue| - n..], fe[|fe| - n..];
      var value := t.act(p, values, places, last);
      if p == t.accepting { return true, Some(value); }
      Pop(n);
      var lhs, place := t.productions[p].lhs, Span(places, fe[|fe| - 1]);
      match t.goto(oe[|oe| - 1], lhs) {
        case None => return true, None;
        case Some(s') =>
          Push(lhs, s', value, place);
          return false, None;
      }
    }
  }

  /** The loop answers what the specification function does, on every input. */
  method ParseLoop<V(!new)>(t: Table<V>, ghost m: Certificate, input: seq<Token>) returns (r: Option<V>)
    requires Valid(t, m)
    ensures r == Parse(t, m, input)
  {
    StartIsLinked(t, input);
    hide Valid, Inv, Run, Step;
    var stacks := new Stacks<V>(t.nothing);
    var rest, last := input, NO_TOKEN;
    ghost var c := Start(t, input);
    while true
      invariant c == stacks.Abs(rest, last) && Inv(t, c) && InStep(c)
      invariant Run(t, m, c) == Parse(t, m, input)
      decreases |rest|, Height(m, c), m.rank(Top(c))
    {
      StepIsTotal(t, m, c);
      RunUnfolds(t, m, c);
      var state := stacks.oe[|stacks.oe| - 1];
      var action;
      match t.defaultAction(state) {
        case Some(p) => action := Reduce(p);
        case None => action := t.action(state, if rest == [] then END else rest[0].kind);
      }
      match action {
        case Error =>
          ErrorStops(t, c);
          return None;
        case Shift(s') =>
          var k := rest[0];
          ShiftSteps(t, c, s');
          stacks.Push(k.kind, s', t.leaf(k), k.loc);
          rest, last := rest[1..], k;
        case Reduce(p) =>
          var done, result := stacks.Reduce(t, p, rest, last);
          if done { return result; }
      }
      c := Step(t, c).next;
      StaysInStep(t, c);
    }
  }
}

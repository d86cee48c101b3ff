/** The environment operations as the original performs them: on frame objects updated in place and
    shared by chains.  Each is proved against the store operation of module Environment.
 */
module Frames {
  import opened Options
  import opened Syntax
  import opened Environment

  class FrameObject {
    var bindings: Frame

    constructor ()
      ensures bindings == map[]
    {
      bindings := map[];
    }

    method AddBinding(x: string, v: Value, mutable: bool)
      modifies this
      ensures bindings == old(bindings)[x := Denoted(v, mutable)]
    {
      bindings := bindings[x := Denoted(v, mutable)];
    }

    method SetValue(x: string, v: Value)
      requires x in bindings
      modifies this
      ensures bindings == old(bindings)[x := Denoted(v, old(bindings)[x].mutable)]
    {
      bindings := bindings[x := bindings[x].(value := v)];
    }
  }

  /** An environment: an immutable pair of a frame and the enclosing environment. */
  datatype Chain = Empty | Enclose(first: FrameObject, rest: Chain)

  ghost predicate Distinct(heap: seq<FrameObject>) {
    forall i, j | 0 <= i < j < |heap| :: heap[i] != heap[j]
  }

  ghost function Contents(heap: seq<FrameObject>): (frames: seq<Frame>)
    reads heap
    ensures |frames| == |heap| && forall i | 0 <= i < |heap| :: frames[i] == heap[i].bindings
  {
    if heap == [] then [] else [heap[0].bindings] + Contents(heap[1..])
  }

  /** `env` is the chain of the frames at `addresses`. */
  ghost predicate At(env: Chain, addresses: Env, heap: seq<FrameObject>) {
    match env
    case Empty => addresses == []
    case Enclose(f, rest) =>
      addresses != [] && addresses[0] < |heap| && heap[addresses[0]] == f && At(rest, addresses[1..], heap)
  }

  lemma {:induction false} AtGrows(env: Chain, addresses: Env, heap: seq<FrameObject>, more: seq<FrameObject>)
    requires At(env, addresses, heap)
    ensures At(env, addresses, heap + more)
    decreases env
  {
    if env.Enclose? { AtGrows(env.rest, addresses[1..], heap, more); }
  }

  method LookupNameValue(x: string, env: Chain, ghost addresses: Env, ghost heap: seq<FrameObject>)
      returns (r: Option<Value>)
    requires At(env, addresses, heap)
    ensures r == Lookup(Contents(heap), addresses, x)
    decreases env
  {
    match env
    case Empty => r := None;
    case Enclose(f, rest) =>
      if x in f.bindings {
        r := Some(f.bindings[x].value);
      } else {
        r := LookupNameValue(x, rest, addresses[1..], heap);
      }
  }

  method AssignNameToValue(x: string, v: Value, env: Chain, ghost addresses: Env, ghost heap: seq<FrameObject>)
    returns (found: bool)
    requires Distinct(heap) && At(env, addresses, heap)
    modifies heap
    ensures var after := Assign(old(Contents(heap)), addresses, x, v);
            found == after.Some? && Contents(heap) == if found then after.value else old(Contents(heap))
    decreases env
  {
    found := false;
    if env.Enclose? {
      if x in env.first.bindings {
        env.first.SetValue(x, v);
        found := true;
      } else {
        found := AssignNameToValue(x, v, env.rest, addresses[1..], heap);
      }
    }
  }

  /** declare_constant and declare_variable: they differ in the flag only. */
  method DeclareName(x: string, v: Value, mutable: bool, env: Chain, ghost addresses: Env, ghost heap: seq<FrameObject>)
    requires Distinct(heap) && env.Enclose? && At(env, addresses, heap)
    modifies env.first
    ensures Contents(heap) == Declare(old(Contents(heap)), addresses[0], x, v, mutable)
  {
    env.first.AddBinding(x, v, mutable);
  }

  /** Binds names to values pairwise until either list runs out. */
  method MakeFrameObject(ps: seq<string>, vs: seq<Value>) returns (f: FrameObject)
    ensures fresh(f)
    ensures var n := if |ps| <= |vs| then |ps| else |vs|; f.bindings == MakeFrame(ps[..n], vs[..n])
  {
    f := new FrameObject();
    var i := 0;
    while i < |ps| && i < |vs|
      invariant 0 <= i <= |ps| && i <= |vs|
      invariant f.bindings == MakeFrame(ps[..i], vs[..i])
    {
      f.AddBinding(ps[i], vs[i], true);
      i := i + 1;
      assert ps[..i][..i - 1] == ps[..i - 1] && vs[..i][..i - 1] == vs[..i - 1];
    }
  }

  /** Fails on a mismatch in number; otherwise the new frame is a new address at the end of the store
      and everything else is as it was. */
  method ExtendEnvironment(ps: seq<string>, vs: seq<Value>, env: Chain, ghost addresses: Env,
                           ghost heap: seq<FrameObject>)
    returns (r: Option<Chain>, ghost heap': seq<FrameObject>)
    requires Distinct(heap) && At(env, addresses, heap)
    ensures r.Some? <==> |ps| == |vs|
    ensures Distinct(heap') && heap <= heap' && (r.None? ==> heap' == heap)
    ensures r.Some? ==> At(r.value, [|heap|] + addresses, heap')
    ensures r.Some? ==> Contents(heap') == old(Contents(heap)) + [MakeFrame(ps, vs)]
  {
    r, heap' := None, heap;
    if |ps| == |vs| {
      var f := MakeFrameObject(ps, vs);
      assert ps[..|ps|] == ps && vs[..|vs|] == vs;
      r, heap' := Some(Enclose(f, env)), heap + [f];
      AtGrows(env, addresses, heap, [f]);
      assert ([|heap|] + addresses)[1..] == addresses;
    }
  }
}

/** The Elixir evaluator: one receive per connection, at most one frame decoded per receive, and what is
    left of the bytes carried over to the next connection.
 */
module CarryOver {
  import opened Options
  import opened Protocol

  /** A decoded request; its timeout is read and ignored. */
  datatype Frame = Frame(timeout: int, context: Bytes, code: Bytes)

  /** Evaluating code in a binding: the new one, or none when an exception is rescued.  Evaluations may
      influence each other in other ways, so each also sees which one it is. */
  type Eval<!B> = (nat, Bytes, B) -> Option<B>

  /** What the accept loop passes to itself, and the frames evaluated so far. */
  datatype State<B> = State(buffer: Bytes, bindings: map<Bytes, B>, done: seq<Frame>)

  const EMPTY: Bytes := []

  function Start<B>(): State<B> {
    State(EMPTY, map[], [])
  }

  // ----- The accept loop -----

  predicate Whole(buffer: Bytes) {
    |buffer| >= 12 && |buffer| >= 12 + U32(buffer, 4) + U32(buffer, 8)
  }

  function Size(buffer: Bytes): (n: nat)
    requires Whole(buffer)
    ensures 12 <= n <= |buffer|
  {
    12 + U32(buffer, 4) + U32(buffer, 8)
  }

  function First(buffer: Bytes): Frame
    requires Whole(buffer)
  {
    Frame(U32(buffer, 0), buffer[12..12 + U32(buffer, 4)], buffer[12 + U32(buffer, 4)..Size(buffer)])
  }

  function Interpret<B>(eval: Eval<B>, initial: B, s: State<B>): State<B> {
    if !Whole(s.buffer) then s
    else
      var f := First(s.buffer);
      var binding := if f.context in s.bindings then s.bindings[f.context] else initial;
      var bindings :=
        match eval(|s.done|, f.code, binding)
        case Some(b) => s.bindings[f.context := b]
        case None => s.bindings;
      State(s.buffer[Size(s.buffer)..], bindings, s.done + [f])
  }

  function Serve<B>(eval: Eval<B>, initial: B, s: State<B>, input: Bytes): State<B> {
    Interpret(eval, initial, s.(buffer := s.buffer + input))
  }

  /** One connection after another, given what each receive yields. */
  function AcceptLoop<B>(eval: Eval<B>, initial: B, inputs: seq<Bytes>): State<B> {
    if inputs == [] then Start()
    else Serve(eval, initial, AcceptLoop(eval, initial, inputs[..|inputs| - 1]), inputs[|inputs| - 1])
  }

  // ----- Frames and bytes -----

  /** A frame whose numbers fit their fields. */
  predicate Fits(f: Frame) {
    0 <= f.timeout < TWO_32 && |f.context| < TWO_32 && |f.code| < TWO_32
  }

  function Wire(f: Frame): Bytes
    requires Fits(f)
  {
    Le32(f.timeout) + Le32(|f.context|) + Le32(|f.code|) + f.context + f.code
  }

  function WireAll(fs: seq<Frame>): Bytes
    requires forall f | f in fs :: Fits(f)
  {
    if fs == [] then [] else WireAll(fs[..|fs| - 1]) + Wire(fs[|fs| - 1])
  }

  /** The whole-stream decode: frame after frame from the front. */
  function DecodeAll(bs: Bytes): seq<Frame>
    decreases |bs|
  {
    if Whole(bs) then [First(bs)] + DecodeAll(bs[Size(bs)..]) else []
  }

  lemma Le32OfU32(bs: Bytes, at: nat)
    requires at + 4 <= |bs|
    ensures Le32(U32(bs, at)) == bs[at..at + 4]
  {
    var a, b, c, d: int := bs[at], bs[at + 1], bs[at + 2], bs[at + 3];
    Digits(a, b, c, d);
  }

  lemma Digits(a: int, b: int, c: int, d: int)
    requires 0 <= a < 256 && 0 <= b < 256 && 0 <= c < 256 && 0 <= d < 256
    ensures Le32(a + b * 256 + c * 0x1_0000 + d * 0x100_0000) == [a, b, c, d]
  {
    var n := a + b * 256 + c * 0x1_0000 + d * 0x100_0000;
    assert n / 256 == b + c * 256 + d * 0x1_0000;
    assert n / 0x1_0000 == c + d * 256;
    assert n / 0x100_0000 == d;
  }

  /** Taking a frame off the front is undone by writing it. */
  lemma FirstIsOnTheWire(bs: Bytes)
    requires Whole(bs)
    ensures Fits(First(bs)) && Wire(First(bs)) + bs[Size(bs)..] == bs
  {
    Le32OfU32(bs, 0);
    Le32OfU32(bs, 4);
    Le32OfU32(bs, 8);
    hide Le32, U32;
    assert bs[..4] + bs[4..8] + bs[8..12] == bs[..12];
  }

  /** Writing a frame is undone by taking one off the front. */
  lemma WireReadsBack(f: Frame, rest: Bytes)
    requires Fits(f)
    ensures var bs := Wire(f) + rest; Whole(bs) && First(bs) == f && bs[Size(bs)..] == rest
  {
    var t, k, c := Le32(f.timeout), Le32(|f.context|), Le32(|f.code|);
    Le32RoundTrip(f.timeout, [], k + c + f.context + f.code + rest);
    Le32RoundTrip(|f.context|, t, c + f.context + f.code + rest);
    Le32RoundTrip(|f.code|, t + k, f.context + f.code + rest);
    var bs := Wire(f) + rest;
    hide Le32, U32;
    assert bs == [] + t + (k + c + f.context + f.code + rest);
    assert bs == t + k + (c + f.context + f.code + rest);
    assert bs == (t + k) + c + (f.context + f.code + rest);
  }

  /** What a client writes for a key and code: each as far as its length fits 32 bits. */
  function Sent(timeout: nat, key: Bytes, code: Bytes): (f: Frame)
    ensures Fits(f)
  {
    Frame(timeout % TWO_32 * 1000 % TWO_32, key[..|key| % TWO_32], code[..|code| % TWO_32])
  }

  lemma EncodedIsSent(timeout: nat, key: Bytes, code: Bytes)
    ensures Encode(timeout, key, code) == Wire(Sent(timeout, key, code))
  {
    hide Le32;
  }

  /** The frame taken off what a client writes is what it wrote: its timeout, then its key, then its code. */
  lemma EncodedIsFirst(timeout: nat, key: Bytes, code: Bytes, rest: Bytes)
    ensures var bs := Encode(timeout, key, code) + rest;
            Whole(bs) && First(bs) == Sent(timeout, key, code) && bs[Size(bs)..] == rest
  {
    hide Sent, Encode, Wire, Whole, First, Size, Fits;
    EncodedIsSent(timeout, key, code);
    WireReadsBack(Sent(timeout, key, code), rest);
  }

  // ----- Conservation -----

  /** The frames evaluated, and the buffer, are the bytes received. */
  ghost predicate Conserved<B>(s: State<B>, received: Bytes) {
    (forall f | f in s.done :: Fits(f)) && WireAll(s.done) + s.buffer == received
  }

  lemma {:induction false} Conservation<B>(eval: Eval<B>, initial: B, inputs: seq<Bytes>)
    ensures Conserved(AcceptLoop(eval, initial, inputs), Flatten(inputs))
  {
    if inputs != [] {
      var n := |inputs| - 1;
      Conservation(eval, initial, inputs[..n]);
      FlattenLast(inputs);
      ServeConserves(eval, initial, AcceptLoop(eval, initial, inputs[..n]), inputs[n], Flatten(inputs[..n]));
      hide Conserved, Flatten, Serve;
    }
  }

  lemma FlattenLast(inputs: seq<Bytes>)
    requires inputs != []
    ensures Flatten(inputs) == Flatten(inputs[..|inputs| - 1]) + inputs[|inputs| - 1]
  {
    var n := |inputs| - 1;
    assert inputs == inputs[..n] + [inputs[n]];
    FlattenSplits(inputs[..n], [inputs[n]]);
    FlattenOne(inputs[n]);
  }

  lemma ServeConserves<B>(eval: Eval<B>, initial: B, s: State<B>, input: Bytes, received: Bytes)
    requires Conserved(s, received)
    ensures Conserved(Serve(eval, initial, s, input), received + input)
  {
    hide Fits, Interpret, WireAll;
    assert WireAll(s.done) + (s.buffer + input) == received + input;
    InterpretConserves(eval, initial, s.(buffer := s.buffer + input), received + input);
  }

  lemma InterpretConserves<B>(eval: Eval<B>, initial: B, s: State<B>, received: Bytes)
    requires Conserved(s, received)
    ensures Conserved(Interpret(eval, initial, s), received)
  {
    if Whole(s.buffer) {
      var f := First(s.buffer);
      FirstIsOnTheWire(s.buffer);
      hide Wire, First, Size, Whole;
      assert (s.done + [f])[..|s.done|] == s.done;
    }
  }

  // ----- Which frames -----

  lemma DecodeOne(f: Frame, rest: Bytes)
    requires Fits(f)
    ensures DecodeAll(Wire(f) + rest) == [f] + DecodeAll(rest)
  {
    WireReadsBack(f, rest);
    hide Wire, First, Size, Whole;
  }

  lemma {:induction false} DecodeAllOfWires(fs: seq<Frame>, rest: Bytes)
    requires forall f | f in fs :: Fits(f)
    ensures DecodeAll(WireAll(fs) + rest) == fs + DecodeAll(rest)
  {
    hide DecodeAll, Wire, Fits;
    if fs == [] {
      assert WireAll(fs) + rest == rest;
    } else {
      var n := |fs| - 1;
      var front, tail := WireAll(fs[..n]), Wire(fs[n]) + rest;
      DecodeAllOfWires(fs[..n], tail);
      DecodeOne(fs[n], rest);
      assert WireAll(fs) + rest == front + tail;
      hide WireAll;
      assert fs == fs[..n] + [fs[n]];
    }
  }

  /** After each receive the frames evaluated are the first of those the whole stream decodes to. */
  lemma EvaluatedIsPrefix<B>(eval: Eval<B>, initial: B, inputs: seq<Bytes>, later: Bytes)
    ensures AcceptLoop(eval, initial, inputs).done <= DecodeAll(Flatten(inputs) + later)
  {
    var s := AcceptLoop(eval, initial, inputs);
    Conservation(eval, initial, inputs);
    Undecoded(s, Flatten(inputs), later);
  }

  /** There is one more of them than before the receive, unless no more have arrived. */
  lemma OneFramePerReceive<B>(eval: Eval<B>, initial: B, inputs: seq<Bytes>)
    requires inputs != []
    ensures var before := |AcceptLoop(eval, initial, inputs[..|inputs| - 1]).done|;
            var arrived := |DecodeAll(Flatten(inputs))|;
            |AcceptLoop(eval, initial, inputs).done| == if before < arrived then before + 1 else before
  {
    var n := |inputs| - 1;
    Conservation(eval, initial, inputs[..n]);
    FlattenLast(inputs);
    Advances(eval, initial, AcceptLoop(eval, initial, inputs[..n]), Flatten(inputs[..n]), inputs[n]);
  }

  lemma Advances<B>(eval: Eval<B>, initial: B, s: State<B>, received: Bytes, input: Bytes)
    requires Conserved(s, received)
    ensures var arrived := |DecodeAll(received + input)|;
            |Serve(eval, initial, s, input).done| == if |s.done| < arrived then |s.done| + 1 else |s.done|
  {
    Undecoded(s, received, input);
    hide First, Size, Conserved;
  }

  /** What is received and what comes later decodes to the frames done and those still in the buffer. */
  lemma Undecoded<B>(s: State<B>, received: Bytes, later: Bytes)
    requires Conserved(s, received)
    ensures DecodeAll(received + later) == s.done + DecodeAll(s.buffer + later)
  {
    assert WireAll(s.done) + (s.buffer + later) == received + later;
    DecodeAllOfWires(s.done, s.buffer + later);
  }

  // ----- Whose request is answered -----

  /** Each connection sends a request of its own, and its one receive yields a beginning of it. */
  ghost predicate Sends(inputs: seq<Bytes>, requests: seq<Frame>) {
    |inputs| == |requests| && (forall f | f in requests :: Fits(f))
    && forall i | 0 <= i < |inputs| :: inputs[i] <= Wire(requests[i])
  }

  /** Each connection has had its own request evaluated, and not another's. */
  ghost predicate Answered<B>(eval: Eval<B>, initial: B, inputs: seq<Bytes>, requests: seq<Frame>)
    requires |inputs| == |requests|
  {
    forall k | 0 <= k <= |inputs| :: AcceptLoop(eval, initial, inputs[..k]).done == requests[..k]
  }

  /** One receive per connection is enough exactly when each yields its whole request. */
  lemma AnsweredIffWhole<B>(eval: Eval<B>, initial: B, inputs: seq<Bytes>, requests: seq<Frame>)
    requires Sends(inputs, requests)
    ensures Answered(eval, initial, inputs, requests) <==>
        forall i | 0 <= i < |inputs| :: inputs[i] == Wire(requests[i])
  {
    if forall i | 0 <= i < |inputs| :: inputs[i] == Wire(requests[i]) {
      forall k | 0 <= k <= |inputs| ensures AcceptLoop(eval, initial, inputs[..k]).done == requests[..k] {
        WholeIsAnswered(eval, initial, inputs[..k], requests[..k]);
      }
    }
    if Answered(eval, initial, inputs, requests) {
      Conservation(eval, initial, inputs);
      assert inputs[..|inputs|] == inputs && requests[..|inputs|] == requests;
      NothingMissing(inputs, requests);
    }
  }

  lemma PartIsNotWhole(f: Frame, n: nat)
    requires Fits(f) && n < |Wire(f)|
    ensures !Whole(Wire(f)[..n])
  {
    var e := Wire(f);
    WireReadsBack(f, []);
    assert e + [] == e;
    hide U32;
    if n >= 12 {
      assert e[..n][..12] == e[..12];
      SameWords(e, e[..n]);
    }
  }

  /** A request of which the first receive yields a beginning and the second the rest: the first connection
      gets no answer, and the second gets the answer to the first's request, whatever its own. */
  lemma SplitIsAnsweredLate<B>(eval: Eval<B>, initial: B, f: Frame, other: Frame, n: nat)
    requires Fits(f) && n < |Wire(f)|
    ensures var inputs := [Wire(f)[..n], Wire(f)[n..]];
            && AcceptLoop(eval, initial, inputs[..1]).done == []
            && AcceptLoop(eval, initial, inputs).done == [f]
            && !Answered(eval, initial, inputs, [f, other])
  {
    hide Wire, Whole, First, Size;
    var head, tail := Wire(f)[..n], Wire(f)[n..];
    var inputs := [head, tail];
    var none: seq<Bytes> := [];
    assert inputs[..1] == [head] && [head][..0] == none && inputs[..2] == inputs;
    assert [] + head == head && head + tail == Wire(f) + [];
    PartIsNotWhole(f, n);
    WireReadsBack(f, []);
    var s := AcceptLoop(eval, initial, none);
    var s1 := AcceptLoop(eval, initial, [head]);
    assert s1 == Serve(eval, initial, s, head);
    assert AcceptLoop(eval, initial, inputs) == Serve(eval, initial, s1, tail);
    assert [f, other][..1] == [f];
  }

  /** For instance, when the first receive yields just the 12 bytes of the header. */
  lemma HeaderIsAnsweredLate<B>(eval: Eval<B>, initial: B)
    ensures var f, g := Frame(0, [99], [49]), Frame(0, [100], [50]);
            var inputs := [[0, 0, 0, 0, 1, 0, 0, 0, 1, 0, 0, 0], [99, 49]];
            AcceptLoop(eval, initial, inputs).done == [f] && !Answered(eval, initial, inputs, [f, g])
  {
    var f, g := Frame(0, [99], [49]), Frame(0, [100], [50]);
    assert Wire(f) == [0, 0, 0, 0, 1, 0, 0, 0, 1, 0, 0, 0, 99, 49];
    assert Wire(f)[..12] == [0, 0, 0, 0, 1, 0, 0, 0, 1, 0, 0, 0] && Wire(f)[12..] == [99, 49];
    SplitIsAnsweredLate(eval, initial, f, g, 12);
    hide *;
  }

  lemma {:induction false} WholeIsAnswered<B>(eval: Eval<B>, initial: B, inputs: seq<Bytes>, requests: seq<Frame>)
    requires Sends(inputs, requests) && forall i | 0 <= i < |inputs| :: inputs[i] == Wire(requests[i])
    ensures var s := AcceptLoop(eval, initial, inputs); s.done == requests && s.buffer == []
  {
    if inputs != [] {
      var n := |inputs| - 1;
      WholeIsAnswered(eval, initial, inputs[..n], requests[..n]);
      var s := AcceptLoop(eval, initial, inputs[..n]);
      WireReadsBack(requests[n], []);
      hide Wire, First, Size, Whole;
      assert s.buffer + inputs[n] == Wire(requests[n]) + [];
      assert requests == requests[..n] + [requests[n]];
    }
  }

  /** Beginnings of requests that add up to all of them are all of them. */
  lemma {:induction false} NothingMissing(inputs: seq<Bytes>, requests: seq<Frame>)
    requires Sends(inputs, requests)
    ensures |Flatten(inputs)| <= |WireAll(requests)|
    ensures |Flatten(inputs)| == |WireAll(requests)| ==> forall i | 0 <= i < |inputs| :: inputs[i] == Wire(requests[i])
  {
    if inputs != [] {
      hide Wire, Fits;
      var n := |inputs| - 1;
      NothingMissing(inputs[..n], requests[..n]);
      FlattenLast(inputs);
      if |Flatten(inputs)| == |WireAll(requests)| {
        forall i | 0 <= i < |inputs| ensures inputs[i] == Wire(requests[i]) {
          if i < n { assert inputs[..n][i] == Wire(requests[..n][i]); }
        }
      }
    }
  }

  // ----- Bindings -----

  /** What a context is bound to after the frames `done`, looking at its own frames only. */
  function BindingOf<B>(eval: Eval<B>, initial: B, done: seq<Frame>, context: Bytes): Option<B> {
    if done == [] then None
    else
      var n := |done| - 1;
      var before := BindingOf(eval, initial, done[..n], context);
      if done[n].context != context then before
      else
        var after := eval(n, done[n].code, if before.Some? then before.value else initial);
        if after.Some? then after else before
  }

  function Lookup<B>(m: map<Bytes, B>, context: Bytes): Option<B> {
    if context in m then Some(m[context]) else None
  }

  ghost predicate Own<B>(eval: Eval<B>, initial: B, s: State<B>, context: Bytes) {
    Lookup(s.bindings, context) == BindingOf(eval, initial, s.done, context)
  }

  /** The bindings of a context are the result of its own frames, in order: an evaluation changes no
      other context, and one that fails changes none. */
  lemma {:induction false} BindingsAreTheContextsOwn<B>(eval: Eval<B>, initial: B, inputs: seq<Bytes>, context: Bytes)
    ensures Own(eval, initial, AcceptLoop(eval, initial, inputs), context)
  {
    if inputs != [] {
      var n := |inputs| - 1;
      BindingsAreTheContextsOwn(eval, initial, inputs[..n], context);
      var s := AcceptLoop(eval, initial, inputs[..n]);
      OwnStep(eval, initial, s.(buffer := s.buffer + inputs[n]), context);
      hide BindingOf, Interpret, Lookup;
    }
  }

  lemma OwnStep<B>(eval: Eval<B>, initial: B, s: State<B>, context: Bytes)
    requires Own(eval, initial, s, context)
    ensures Own(eval, initial, Interpret(eval, initial, s), context)
  {
    if Whole(s.buffer) {
      var f := First(s.buffer);
      hide First, Size, U32, Whole;
      assert (s.done + [f])[..|s.done|] == s.done;
    }
  }
}

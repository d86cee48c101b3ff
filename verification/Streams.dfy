/** Streams: pairs whose tail is a function to be called when needed.  Each function the library closes
    over is a constructor of `Thunk` here, holding what it captures.
 */
module Streams {
  import opened Options

  datatype Stream<!T(==)> = End | Cell(head: T, tail: Thunk<T>)

  datatype Thunk<!T(==)> =
    | Listed(rest: seq<T>)                        // () => list_to_stream(rest)
    | Mapped(f: T -> T, s: Stream<T>)             // () => stream_map(f, stream_tail(s))
    | Filtered(p: T -> bool, s: Stream<T>)        // () => stream_filter(p, stream_tail(s))
    | Without(x: T, s: Stream<T>)                 // () => stream_remove_all(x, stream_tail(s))
    | Appended(s: Stream<T>, more: Stream<T>)     // () => stream_append(stream_tail(s), more)
    | Held(s: Stream<T>)                          // () => s
    | Counted(step: T -> T, from: T)              // () => integers_from(from), one step after another

  // ----- Which streams end -----

  predicate Ends<T(==)>(s: Stream<T>) {
    match s
    case End => true
    case Cell(_, t) => EndsAfter(t)
  }

  predicate EndsAfter<T(==)>(t: Thunk<T>) {
    match t
    case Listed(_) => true
    case Mapped(_, s) => Ends(s)
    case Filtered(_, s) => Ends(s)
    case Without(_, s) => Ends(s)
    case Appended(s, more) => Ends(s) && Ends(more)
    case Held(s) => Ends(s)
    case Counted(_, _) => false
  }

  /** A bound on the length of a stream that ends. */
  function Bound<T(==)>(s: Stream<T>): nat {
    match s
    case End => 0
    case Cell(_, t) => 1 + BoundAfter(t)
  }

  function BoundAfter<T(==)>(t: Thunk<T>): nat {
    match t
    case Listed(rest) => |rest|
    case Mapped(_, s) => Less(Bound(s))
    case Filtered(_, s) => Less(Bound(s))
    case Without(_, s) => Less(Bound(s))
    case Appended(s, more) => Less(Bound(s)) + Bound(more)
    case Held(s) => Bound(s)
    case Counted(_, _) => 0
  }

  function Less(n: nat): nat {
    if n == 0 then 0 else n - 1
  }

  /** A thunk that can be called: one that skips elements only skips through a stream that ends, and the
      streams it takes tails of have them. */
  predicate Callable<T(==)>(t: Thunk<T>) {
    match t
    case Listed(_) => true
    case Mapped(_, s) => s.Cell? && Productive(s)
    case Filtered(_, s) => s.Cell? && Productive(s) && Ends(s)
    case Without(_, s) => s.Cell? && Productive(s) && Ends(s)
    case Appended(s, more) => s.Cell? && Productive(s) && Productive(more)
    case Held(s) => Productive(s)
    case Counted(_, _) => true
  }

  predicate Productive<T(==)>(s: Stream<T>) {
    s.Cell? ==> Callable(s.tail)
  }

  // ----- The library -----

  /** Calling a tail: every stream that ends gets shorter. */
  function StreamTail<T(==)>(s: Stream<T>): (r: Stream<T>)
    requires s.Cell? && Productive(s)
    ensures Productive(r) && (Ends(s) ==> Ends(r) && Bound(r) < Bound(s))
    decreases !Ends(s), Bound(s), s, 0
  {
    Call(s.tail)
  }

  function Call<T(==)>(t: Thunk<T>): (r: Stream<T>)
    requires Callable(t)
    ensures Productive(r) && (EndsAfter(t) ==> Ends(r) && Bound(r) <= BoundAfter(t))
    decreases !EndsAfter(t), BoundAfter(t) + 1, t, 0
  {
    match t
    case Listed(rest) => ListToStream(rest)
    case Mapped(f, s) => StreamMap(f, StreamTail(s))
    case Filtered(p, s) => StreamFilter(p, StreamTail(s))
    case Without(x, s) => StreamRemoveAll(x, StreamTail(s))
    case Appended(s, more) => StreamAppend(StreamTail(s), more)
    case Held(s) => s
    case Counted(step, from) => Count(step, from)
  }

  function ListToStream<T(==)>(xs: seq<T>): (r: Stream<T>)
    ensures Productive(r) && Ends(r) && Bound(r) <= |xs|
  {
    if xs == [] then End else Cell(xs[0], Listed(xs[1..]))
  }

  function StreamMap<T(==)>(f: T -> T, s: Stream<T>): (r: Stream<T>)
    requires Productive(s)
    ensures Productive(r) && (Ends(s) ==> Ends(r) && Bound(r) <= Bound(s))
  {
    match s
    case End => End
    case Cell(x, _) => Cell(f(x), Mapped(f, s))
  }

  function StreamFilter<T(==)>(p: T -> bool, s: Stream<T>): (r: Stream<T>)
    requires Productive(s) && Ends(s)
    ensures Productive(r) && Ends(r) && Bound(r) <= Bound(s)
    decreases false, Bound(s), s, 1
  {
    match s
    case End => End
    case Cell(x, _) => if p(x) then Cell(x, Filtered(p, s)) else StreamFilter(p, StreamTail(s))
  }

  function StreamRemoveAll<T(==)>(x: T, s: Stream<T>): (r: Stream<T>)
    requires Productive(s) && Ends(s)
    ensures Productive(r) && Ends(r) && Bound(r) <= Bound(s)
    decreases false, Bound(s), s, 1
  {
    match s
    case End => End
    case Cell(y, _) => if x == y then StreamRemoveAll(x, StreamTail(s)) else Cell(y, Without(x, s))
  }

  function StreamAppend<T(==)>(s: Stream<T>, more: Stream<T>): (r: Stream<T>)
    requires Productive(s) && Productive(more)
    ensures Productive(r) && (Ends(s) && Ends(more) ==> Ends(r) && Bound(r) <= Bound(s) + Bound(more))
  {
    match s
    case End => more
    case Cell(x, _) => Cell(x, Appended(s, more))
  }

  function ReverseOnto<T(==)>(s: Stream<T>, done: Stream<T>): (r: Stream<T>)
    requires Productive(s) && Ends(s) && Productive(done) && Ends(done)
    ensures Productive(r) && Ends(r)
    decreases Bound(s)
  {
    match s
    case End => done
    case Cell(x, _) => ReverseOnto(StreamTail(s), Cell(x, Held(done)))
  }

  function StreamReverse<T(==)>(s: Stream<T>): (r: Stream<T>)
    requires Productive(s) && Ends(s)
    ensures Productive(r) && Ends(r)
  {
    ReverseOnto(s, End)
  }

  function Count<T(==)>(step: T -> T, from: T): (r: Stream<T>)
    ensures Productive(r)
  {
    Cell(from, Counted(step, step(from)))
  }

  function IntegersFrom(k: int): (r: Stream<int>)
    ensures Productive(r)
  {
    Count(i => i + 1, k)
  }

  function StreamToList<T(==)>(s: Stream<T>): seq<T>
    requires Productive(s) && Ends(s)
    decreases Bound(s)
  {
    match s
    case End => []
    case Cell(x, _) => [x] + StreamToList(StreamTail(s))
  }

  /** The first `n` elements, or an error when there are fewer. */
  function EvalStream<T(==)>(s: Stream<T>, n: nat): Option<seq<T>>
    requires Productive(s)
    decreases n
  {
    if n == 0 then Some([])
    else
      match s
      case End => None
      case Cell(x, _) =>
        (match EvalStream(StreamTail(s), n - 1)
         case None => None
         case Some(xs) => Some([x] + xs))
  }

  // ----- The list library -----

  function Map<T(==)>(f: T -> T, xs: seq<T>): seq<T> {
    if xs == [] then [] else [f(xs[0])] + Map(f, xs[1..])
  }

  function Filter<T(==)>(p: T -> bool, xs: seq<T>): seq<T> {
    if xs == [] then [] else (if p(xs[0]) then [xs[0]] else []) + Filter(p, xs[1..])
  }

  function RemoveAll<T(==)>(x: T, xs: seq<T>): seq<T> {
    if xs == [] then [] else if x == xs[0] then RemoveAll(x, xs[1..]) else [xs[0]] + RemoveAll(x, xs[1..])
  }

  function Reverse<T(==)>(xs: seq<T>): seq<T> {
    if xs == [] then [] else Reverse(xs[1..]) + [xs[0]]
  }

  function EnumList(from: int, to: int): seq<int>
    decreases to - from
  {
    if from > to then [] else [from] + EnumList(from + 1, to)
  }

  // ----- What the list library gives -----

  lemma {:induction false} MapIs<T>(f: T -> T, xs: seq<T>, i: nat)
    ensures |Map(f, xs)| == |xs| && (i < |xs| ==> Map(f, xs)[i] == f(xs[i]))
  {
    if xs != [] { MapIs(f, xs[1..], if i > 0 then i - 1 else 0); }
  }

  /** A list is filtered part by part, down to single elements. */
  lemma {:induction false} FilterIs<T>(p: T -> bool, xs: seq<T>, ys: seq<T>, x: T)
    ensures Filter(p, xs + ys) == Filter(p, xs) + Filter(p, ys)
    ensures Filter(p, [x]) == if p(x) then [x] else []
  {
    assert [x][1..] == [];
    if xs == [] {
      assert xs + ys == ys;
    } else {
      assert (xs + ys)[1..] == xs[1..] + ys;
      FilterIs(p, xs[1..], ys, x);
    }
  }

  lemma {:induction false} ReverseIs<T>(xs: seq<T>, i: nat)
    ensures |Reverse(xs)| == |xs| && (i < |xs| ==> Reverse(xs)[i] == xs[|xs| - 1 - i])
  {
    if xs != [] { ReverseIs(xs[1..], i); }
  }

  lemma {:induction false} EnumListIs(from: int, to: int)
    ensures |EnumList(from, to)| == (if from > to then 0 else to - from + 1)
    ensures forall i | 0 <= i < |EnumList(from, to)| :: EnumList(from, to)[i] == from + i
    decreases if from > to then 0 else to - from + 1
  {
    if from <= to { EnumListIs(from + 1, to); }
  }

  // ----- Streams agree with lists -----

  lemma {:induction false} ListRoundTrip<T>(xs: seq<T>)
    ensures StreamToList(ListToStream(xs)) == xs
  {
    if xs != [] {
      assert StreamTail(ListToStream(xs)) == ListToStream(xs[1..]);
      ListRoundTrip(xs[1..]);
    }
  }

  lemma {:induction false} MapAgrees<T>(f: T -> T, s: Stream<T>)
    requires Productive(s) && Ends(s)
    ensures StreamToList(StreamMap(f, s)) == Map(f, StreamToList(s))
    decreases Bound(s)
  {
    if s.Cell? {
      assert StreamTail(StreamMap(f, s)) == StreamMap(f, StreamTail(s));
      MapAgrees(f, StreamTail(s));
    }
  }

  lemma {:induction false} FilterAgrees<T>(p: T -> bool, s: Stream<T>)
    requires Productive(s) && Ends(s)
    ensures StreamToList(StreamFilter(p, s)) == Filter(p, StreamToList(s))
    decreases Bound(s)
  {
    if s.Cell? {
      if p(s.head) { assert StreamTail(StreamFilter(p, s)) == StreamFilter(p, StreamTail(s)); }
      FilterAgrees(p, StreamTail(s));
    }
  }

  lemma {:induction false} RemoveAllAgrees<T>(x: T, s: Stream<T>)
    requires Productive(s) && Ends(s)
    ensures StreamToList(StreamRemoveAll(x, s)) == RemoveAll(x, StreamToList(s))
    decreases Bound(s)
  {
    if s.Cell? {
      if x != s.head { assert StreamTail(StreamRemoveAll(x, s)) == StreamRemoveAll(x, StreamTail(s)); }
      RemoveAllAgrees(x, StreamTail(s));
    }
  }

  /** Removing every occurrence is filtering the others, as a stream and as a list. */
  lemma {:induction false} RemoveAllIsFilter<T>(x: T, s: Stream<T>)
    requires Productive(s) && Ends(s)
    ensures StreamToList(StreamRemoveAll(x, s)) == StreamToList(StreamFilter(y => y != x, s))
    decreases Bound(s)
  {
    RemoveAllAgrees(x, s);
    FilterAgrees(y => y != x, s);
    RemoveAllFilters(x, StreamToList(s));
  }

  lemma {:induction false} RemoveAllFilters<T>(x: T, xs: seq<T>)
    ensures RemoveAll(x, xs) == Filter(y => y != x, xs)
  {
    if xs != [] { RemoveAllFilters(x, xs[1..]); }
  }

  lemma {:induction false} AppendAgrees<T>(s: Stream<T>, more: Stream<T>)
    requires Productive(s) && Ends(s) && Productive(more) && Ends(more)
    ensures StreamToList(StreamAppend(s, more)) == StreamToList(s) + StreamToList(more)
    decreases Bound(s)
  {
    if s.Cell? {
      assert StreamTail(StreamAppend(s, more)) == StreamAppend(StreamTail(s), more);
      AppendAgrees(StreamTail(s), more);
    }
  }

  lemma {:induction false} ReverseOntoAgrees<T>(s: Stream<T>, done: Stream<T>)
    requires Productive(s) && Ends(s) && Productive(done) && Ends(done)
    ensures StreamToList(ReverseOnto(s, done)) == Reverse(StreamToList(s)) + StreamToList(done)
    decreases Bound(s)
  {
    if s.Cell? {
      var held := Cell(s.head, Held(done));
      assert StreamTail(held) == done;
      ReverseOntoAgrees(StreamTail(s), held);
    }
  }

  lemma ReverseAgrees<T>(s: Stream<T>)
    requires Productive(s) && Ends(s)
    ensures StreamToList(StreamReverse(s)) == Reverse(StreamToList(s))
  {
    ReverseOntoAgrees(s, End);
  }

  /** On lists turned into streams: any of the functions is the one of the list library. */
  lemma StreamsAgreeWithLists<T>(f: T -> T, p: T -> bool, x: T, xs: seq<T>, ys: seq<T>)
    ensures StreamToList(StreamMap(f, ListToStream(xs))) == Map(f, xs)
    ensures StreamToList(StreamFilter(p, ListToStream(xs))) == Filter(p, xs)
    ensures StreamToList(StreamRemoveAll(x, ListToStream(xs))) == RemoveAll(x, xs)
    ensures StreamToList(StreamAppend(ListToStream(xs), ListToStream(ys))) == xs + ys
    ensures StreamToList(StreamReverse(ListToStream(xs))) == Reverse(xs)
  {
    ListRoundTrip(xs);
    ListRoundTrip(ys);
    MapAgrees(f, ListToStream(xs));
    FilterAgrees(p, ListToStream(xs));
    RemoveAllAgrees(x, ListToStream(xs));
    AppendAgrees(ListToStream(xs), ListToStream(ys));
    ReverseAgrees(ListToStream(xs));
  }

  // ----- Streams that need not end -----

  lemma {:induction false} IntegersAreEnumerated(k: int, n: nat)
    ensures EvalStream(IntegersFrom(k), n) == Some(EnumList(k, k + n - 1))
    decreases n
  {
    if n > 0 {
      assert StreamTail(IntegersFrom(k)) == IntegersFrom(k + 1);
      IntegersAreEnumerated(k + 1, n - 1);
    }
  }

  /** Mapping commutes with looking at any number of elements, also of a stream without end. */
  lemma {:induction false} MapAgreesUpTo<T>(f: T -> T, s: Stream<T>, n: nat)
    requires Productive(s)
    ensures EvalStream(StreamMap(f, s), n) ==
            match EvalStream(s, n) case None => None case Some(xs) => Some(Map(f, xs))
    decreases n
  {
    if n > 0 && s.Cell? {
      assert StreamTail(StreamMap(f, s)) == StreamMap(f, StreamTail(s));
      MapAgreesUpTo(f, StreamTail(s), n - 1);
    }
  }

  /** A stream that ends yields a number of elements exactly when it has as many. */
  lemma {:induction false} EvalIsTake<T>(s: Stream<T>, n: nat)
    requires Productive(s) && Ends(s)
    ensures EvalStream(s, n) == if n <= |StreamToList(s)| then Some(StreamToList(s)[..n]) else None
    decreases n
  {
    var xs := StreamToList(s);
    if n > 0 && s.Cell? {
      EvalIsTake(StreamTail(s), n - 1);
      assert n <= |xs| ==> xs[..n] == [s.head] + StreamToList(StreamTail(s))[..n - 1];
    } else if n == 0 {
      assert xs[..0] == [];
    }
  }
}

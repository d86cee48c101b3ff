/** The driver follows every derivation that its table does not turn away from: which derivations these are
    can be read off the table, with no stack in sight.
 */
module LRCompleteness {
  import opened Options
  import opened LRParser
  import opened LRSoundness

  /** The kind of the first of `ks`, or `k` behind them. */
  function FirstKind(ks: seq<Token>, k: nat): nat {
    if ks == [] then k else ks[0].kind
  }

  /** Where a derivation leads from state `s`, with `k` the kind of the token behind it, if the driver shifts its
      tokens and reduces by its productions when they are complete. */
  function Leads<V>(t: Table<V>, s: nat, d: Tree, k: nat): Option<nat>
    decreases d, 0
  {
    match d
    case Leaf(token) =>
      (match Resolved(t, s, token.kind)
       case Shift(s') => Some(s')
       case _ => None)
    case Branch(p, ds) =>
      if p >= |t.productions| || p == t.accepting || Roots(t, ds) != t.productions[p].rhs then None
      else
        match LeadsAll(t, s, ds, k)
        case None => None
        case Some(s1) => if Resolved(t, s1, k) == Reduce(p) then t.goto(s, t.productions[p].lhs) else None
  }

  function LeadsAll<V>(t: Table<V>, s: nat, ds: seq<Tree>, k: nat): Option<nat>
    decreases ds, 1
  {
    if ds == [] then Some(s)
    else
      var n := |ds| - 1;
      match LeadsAll(t, s, ds[..n], FirstKind(Yield(ds[n]), k))
      case None => None
      case Some(s1) => Leads(t, s1, ds[n], k)
  }

  /** `c` with a derivation read: its root, value and place pushed. */
  function AfterTree<V>(t: Table<V>, c: Config<V>, d: Tree, s': nat, rest: seq<Token>): Config<V>
    requires InStep(c)
  {
    var (v, l) := Meaning(t, d, c.last, c.fe[|c.fe| - 1]);
    Push(c, Root(t, d), s', v, l).(rest := rest, last := LastOf(Yield(d), c.last))
  }

  /** `c'` is `c` with several derivations read. */
  ghost predicate HasRead<V>(t: Table<V>, c: Config<V>, ds: seq<Tree>, rest: seq<Token>, c': Config<V>)
    requires InStep(c)
  {
    var (vs, ls) := MeaningAll(t, ds, c.last, c.fe[|c.fe| - 1]);
    && c'.ue == c.ue + vs && c'.fe == c.fe + ls && |c'.oe| == |c.oe| + 2 * |ds| && c'.oe[..|c.oe|] == c.oe
    && c'.rest == rest && c'.last == LastOf(YieldAll(ds), c.last)
  }

  lemma {:induction false} TreeIsFollowed<V(!new)>(t: Table<V>, m: Certificate, c: Config<V>, d: Tree,
                                                   rest: seq<Token>) returns (c': Config<V>)
    requires Valid(t, m) && Inv(t, c) && c.rest == Yield(d) + rest
    requires Leads(t, Top(c), d, FirstKind(rest, END)).Some?
    ensures c' == AfterTree(t, c, d, Leads(t, Top(c), d, FirstKind(rest, END)).value, rest)
    ensures Inv(t, c') && Run(t, m, c) == Run(t, m, c')
    decreases d, 0
  {
    var s' := Leads(t, Top(c), d, FirstKind(rest, END)).value;
    c' := AfterTree(t, c, d, s', rest);
    match d
    case Leaf(token) =>
      assert c.rest[0] == token && c.rest[1..] == rest;
      StepKeeps(t, m, c);
      ShiftSteps(t, c, s');
    case Branch(p, ds) =>
      var c1 := TreesAreFollowed(t, m, c, ds, rest);
      ReducesTo(t, m, c, ds, rest, c1, p, s');
  }

  lemma ReducesTo<V(!new)>(t: Table<V>, m: Certificate, c: Config<V>, ds: seq<Tree>, rest: seq<Token>, c1: Config<V>,
                           p: nat, s': nat)
    requires Valid(t, m) && Inv(t, c) && Inv(t, c1) && HasRead(t, c, ds, rest, c1)
    requires p < |t.productions| && p != t.accepting && |ds| == |t.productions[p].rhs|
    requires ActionOf(t, c1) == Reduce(p) && t.goto(Top(c), t.productions[p].lhs) == Some(s')
    ensures Inv(t, AfterTree(t, c, Branch(p, ds), s', rest))
    ensures Run(t, m, c1) == Run(t, m, AfterTree(t, c, Branch(p, ds), s', rest))
  {
    hide Valid, ActionOf, Linked, Meaning, MeaningAll, Span;
    StepKeeps(t, m, c1);
    ReduceSteps(t, c1, p);
    Pops(t, c, ds, rest, c1);
    MeaningOfBranch(t, p, ds, c.last, c.fe[|c.fe| - 1]);
  }

  lemma Pops<V>(t: Table<V>, c: Config<V>, ds: seq<Tree>, rest: seq<Token>, c1: Config<V>)
    requires InStep(c) && InStep(c1) && HasRead(t, c, ds, rest, c1)
    ensures var (vs, ls) := MeaningAll(t, ds, c.last, c.fe[|c.fe| - 1]);
            && |ds| < |c1.ue| && Pop(c1, |ds|) == c.(rest := rest, last := c1.last)
            && c1.ue[|c1.ue| - |ds|..] == vs && c1.fe[|c1.fe| - |ds|..] == ls
  {
    hide MeaningAll;
    var (vs, ls) := MeaningAll(t, ds, c.last, c.fe[|c.fe| - 1]);
    assert (c.ue + vs)[..|c.ue|] == c.ue && (c.fe + ls)[..|c.fe|] == c.fe;
  }

  lemma MeaningOfBranch<V>(t: Table<V>, p: nat, ds: seq<Tree>, before: Token, below: Loc)
    ensures var (vs, ls) := MeaningAll(t, ds, before, below);
            Meaning(t, Branch(p, ds), before, below) ==
            (t.act(p, vs, ls, LastOf(YieldAll(ds), before)), Span(ls, below))
  {
  }

  lemma {:induction false} TreesAreFollowed<V(!new)>(t: Table<V>, m: Certificate, c: Config<V>, ds: seq<Tree>,
                                                     rest: seq<Token>) returns (c': Config<V>)
    requires Valid(t, m) && Inv(t, c) && c.rest == YieldAll(ds) + rest
    requires LeadsAll(t, Top(c), ds, FirstKind(rest, END)).Some?
    ensures Inv(t, c') && HasRead(t, c, ds, rest, c') && Run(t, m, c) == Run(t, m, c')
    ensures Top(c') == LeadsAll(t, Top(c), ds, FirstKind(rest, END)).value
    decreases ds, 1
  {
    hide Valid, Linked, Leads, Meaning, Run;
    if ds == [] {
      c' := c;
      assert c.ue + [] == c.ue && c.fe + [] == c.fe && [] + rest == rest;
    } else {
      var n := |ds| - 1;
      var more := Yield(ds[n]) + rest;
      assert c.rest == YieldAll(ds[..n]) + more;
      assert FirstKind(more, END) == FirstKind(Yield(ds[n]), FirstKind(rest, END));
      var c1 := TreesAreFollowed(t, m, c, ds[..n], more);
      c' := TreeIsFollowed(t, m, c1, ds[n], rest);
      ReadsOneMore(t, c, ds, rest, c1, c', Top(c'));
    }
  }

  lemma ReadsOneMore<V>(t: Table<V>, c: Config<V>, ds: seq<Tree>, rest: seq<Token>, c1: Config<V>, c': Config<V>,
                        s': nat)
    requires ds != [] && InStep(c) && InStep(c1)
    requires var n := |ds| - 1;
             HasRead(t, c, ds[..n], Yield(ds[n]) + rest, c1) && c' == AfterTree(t, c1, ds[n], s', rest)
    ensures HasRead(t, c, ds, rest, c') && Top(c') == s'
  {
    hide Meaning, MeaningAll, Yield, YieldAll;
    var n := |ds| - 1;
    var (vs, ls) := MeaningAll(t, ds[..n], c.last, c.fe[|c.fe| - 1]);
    MeaningOfMore(t, ds, c.last, c.fe[|c.fe| - 1]);
    assert LastPlace(ls, c.fe[|c.fe| - 1]) == c1.fe[|c1.fe| - 1];
    assert c1.last == LastOf(YieldAll(ds[..n]), c.last);
    var (v, l) := Meaning(t, ds[n], c1.last, c1.fe[|c1.fe| - 1]);
    assert c.ue + vs + [v] == c.ue + (vs + [v]) && c.fe + ls + [l] == c.fe + (ls + [l]);
    assert (c1.oe + [Root(t, ds[n]), s'])[..|c.oe|] == c1.oe[..|c.oe|];
  }

  lemma MeaningOfMore<V>(t: Table<V>, ds: seq<Tree>, before: Token, below: Loc)
    requires ds != []
    ensures var n := |ds| - 1;
            var (vs, ls) := MeaningAll(t, ds[..n], before, below);
            var (v, l) := Meaning(t, ds[n], LastOf(YieldAll(ds[..n]), before), LastPlace(ls, below));
            && MeaningAll(t, ds, before, below) == (vs + [v], ls + [l])
            && LastOf(YieldAll(ds), before) == LastOf(Yield(ds[n]), LastOf(YieldAll(ds[..n]), before))
  {
    hide Meaning;
    assert YieldAll(ds) == YieldAll(ds[..|ds| - 1]) + Yield(ds[|ds| - 1]);
  }

  lemma StartIsLinked<V(!new)>(t: Table<V>, input: seq<Token>)
    ensures Inv(t, Start(t, input))
  {
  }

  /** A derivation from the accepting production that the table does not turn away from is what the driver reads,
      and its meaning what it returns. */
  lemma ParseFollows<V(!new)>(t: Table<V>, m: Certificate, ds: seq<Tree>, rest: seq<Token>)
    requires Valid(t, m) && t.accepting < |t.productions| && Roots(t, ds) == t.productions[t.accepting].rhs
    requires var s := LeadsAll(t, 0, ds, FirstKind(rest, END));
             s.Some? && Resolved(t, s.value, FirstKind(rest, END)) == Reduce(t.accepting)
    ensures Parse(t, m, YieldAll(ds) + rest) == Some(Meaning(t, Branch(t.accepting, ds), NO_TOKEN, START_LOC).0)
  {
    hide Valid, Linked, Leads, MeaningAll;
    var c := Start(t, YieldAll(ds) + rest);
    StartIsLinked(t, c.rest);
    var c1 := TreesAreFollowed(t, m, c, ds, rest);
    ReduceSteps(t, c1, t.accepting);
    Pops(t, c, ds, rest, c1);
  }

  // ----- And it follows no other -----

  /** The states on the stack are those that the derivations behind it lead through, with `k` the lookahead. */
  ghost predicate Led<V>(t: Table<V>, oe: seq<nat>, ds: seq<Tree>, k: nat)
    decreases |ds|
  {
    var n := |oe|;
    if ds == [] then oe == [0]
    else
      && n >= 3 && Led(t, oe[..n - 2], ds[..|ds| - 1], FirstKind(Yield(ds[|ds| - 1]), k))
      && Leads(t, oe[n - 3], ds[|ds| - 1], k) == Some(oe[n - 1])
  }

  lemma {:induction false} LedLength<V>(t: Table<V>, oe: seq<nat>, ds: seq<Tree>, k: nat)
    requires Led(t, oe, ds, k)
    ensures |oe| == 2 * |ds| + 1
    decreases |ds|
  {
    hide Leads;
    if ds != [] { LedLength(t, oe[..|oe| - 2], ds[..|ds| - 1], FirstKind(Yield(ds[|ds| - 1]), k)); }
  }

  /** Cutting off the derivations on top. */
  lemma {:induction false} LedSplits<V>(t: Table<V>, oe: seq<nat>, a: seq<Tree>, b: seq<Tree>, k: nat)
    requires Led(t, oe, a + b, k)
    ensures |oe| == 2 * |a + b| + 1
    ensures var below := oe[..|oe| - 2 * |b|];
            && Led(t, below, a, FirstKind(YieldAll(b), k))
            && LeadsAll(t, below[|below| - 1], b, k) == Some(oe[|oe| - 1])
    decreases |b|
  {
    hide Leads;
    LedLength(t, oe, a + b, k);
    if b == [] {
      assert a + b == a && oe[..|oe|] == oe;
    } else {
      var n := |b| - 1;
      var under, k1 := oe[..|oe| - 2], FirstKind(Yield(b[n]), k);
      assert (a + b)[..|a + b| - 1] == a + b[..n] && (a + b)[|a + b| - 1] == b[n];
      LedSplits(t, under, a, b[..n], k1);
      assert under[..|under| - 2 * n] == oe[..|oe| - 2 * |b|];
      assert FirstKind(YieldAll(b), k) == FirstKind(YieldAll(b[..n]), k1);
    }
  }

  lemma LedPush<V>(t: Table<V>, oe: seq<nat>, ds: seq<Tree>, d: Tree, s': nat, k: nat)
    requires oe != [] && Led(t, oe, ds, FirstKind(Yield(d), k)) && Leads(t, oe[|oe| - 1], d, k) == Some(s')
    ensures Led(t, oe + [Root(t, d), s'], ds + [d], k)
  {
    hide Leads;
    assert (ds + [d])[..|ds|] == ds && (oe + [Root(t, d), s'])[..|oe|] == oe;
  }

  lemma StepIsLed<V(!new)>(t: Table<V>, m: Certificate, c: Config<V>, ds: seq<Tree>, input: seq<Token>)
    requires Valid(t, m) && Inv(t, c) && Explains(t, c, ds, input) && Led(t, c.oe, ds, Lookahead(c))
    requires Step(t, c).Continue?
    ensures var c' := Step(t, c).next; Led(t, c'.oe, Grown(t, c, ds), Lookahead(c'))
  {
    hide Valid, Explains, Linked, Led, ReducesIn, IsSuffix, Symbols, Leads;
    StepIsTotal(t, m, c);
    match ActionOf(t, c)
    case Error =>
    case Shift(s') =>
      ShiftSteps(t, c, s');
      ShiftIsLed(t, c, ds, s', Lookahead(Step(t, c).next));
    case Reduce(p) =>
      ReduceIsLed(t, m, c, ds, input, p);
  }

  lemma ShiftIsLed<V>(t: Table<V>, c: Config<V>, ds: seq<Tree>, s': nat, k: nat)
    requires InStep(c) && c.rest != [] && ActionOf(t, c) == Shift(s') && Led(t, c.oe, ds, c.rest[0].kind)
    ensures Led(t, c.oe + [c.rest[0].kind, s'], ds + [Leaf(c.rest[0])], k)
  {
    hide Led;
    LedPush(t, c.oe, ds, Leaf(c.rest[0]), s', k);
  }

  lemma ReduceIsLed<V(!new)>(t: Table<V>, m: Certificate, c: Config<V>, ds: seq<Tree>, input: seq<Token>, p: nat)
    requires Valid(t, m) && Inv(t, c) && Explains(t, c, ds, input) && Led(t, c.oe, ds, Lookahead(c))
    requires ActionOf(t, c) == Reduce(p) && Step(t, c).Continue?
    ensures var c' := Step(t, c).next; Led(t, c'.oe, Grown(t, c, ds), Lookahead(c'))
  {
    hide Valid, Linked, Led, Explains, Leads, LeadsAll, ActionOf, Span;
    ReductionIsDerivation(t, m, c, ds, input, p);
    StepIsTotal(t, m, c);
    ReduceSteps(t, c, p);
    var n := |t.productions[p].rhs|;
    var a, b := ds[..|ds| - n], ds[|ds| - n..];
    BranchIsLed(t, c, a, b, ds, p, t.goto(Top(Pop(c, n)), t.productions[p].lhs).value);
  }

  lemma BranchIsLed<V>(t: Table<V>, c: Config<V>, a: seq<Tree>, b: seq<Tree>, ds: seq<Tree>, p: nat, s': nat)
    requires InStep(c) && a + b == ds && Led(t, c.oe, ds, Lookahead(c)) && ActionOf(t, c) == Reduce(p)
    requires p < |t.productions| && p != t.accepting && Roots(t, b) == t.productions[p].rhs && |b| < |c.ue|
    requires t.goto(Top(Pop(c, |b|)), t.productions[p].lhs) == Some(s')
    ensures Led(t, Pop(c, |b|).oe + [t.productions[p].lhs, s'], a + [Branch(p, b)], Lookahead(c))
  {
    hide Led;
    LedSplits(t, c.oe, a, b, Lookahead(c));
    LedPush(t, Pop(c, |b|).oe, a, Branch(p, b), s', Lookahead(c));
  }

  lemma ReductionIsDerivation<V(!new)>(t: Table<V>, m: Certificate, c: Config<V>, ds: seq<Tree>, input: seq<Token>,
                                       p: nat)
    requires Valid(t, m) && Inv(t, c) && Explains(t, c, ds, input) && ActionOf(t, c) == Reduce(p)
    ensures p < |t.productions| && |t.productions[p].rhs| <= |ds|
    ensures Roots(t, ds[|ds| - |t.productions[p].rhs|..]) == t.productions[p].rhs
  {
    hide Valid, Linked, IsSuffix, Symbols, MeaningAll;
    assert ReducesIn(t, Top(c), p);
    ReduceFindsItsRightSide(t, m, c.oe, p);
    BranchIsDerivation(t, c, p, ds);
  }

  /** What the driver has read when it returns. */
  ghost predicate IsRead<V>(t: Table<V>, ds: seq<Tree>, rest: seq<Token>) {
    && t.accepting < |t.productions| && Roots(t, ds) == t.productions[t.accepting].rhs
    && var s := LeadsAll(t, 0, ds, FirstKind(rest, END));
       s.Some? && Resolved(t, s.value, FirstKind(rest, END)) == Reduce(t.accepting)
  }

  lemma {:induction false} RunIsLed<V(!new)>(t: Table<V>, m: Certificate, c: Config<V>, ds: seq<Tree>,
                                             input: seq<Token>)
    returns (ds': seq<Tree>, rest: seq<Token>)
    requires Valid(t, m) && Inv(t, c) && Explains(t, c, ds, input) && Led(t, c.oe, ds, Lookahead(c))
    requires Run(t, m, c).Some?
    ensures IsRead(t, ds', rest) && YieldAll(ds') + rest == input
    decreases |c.rest|, Height(m, c), m.rank(Top(c))
  {
    hide Valid, Explains, Linked, Led, IsRead, Descends, Accepts;
    StepKeeps(t, m, c);
    var ds1 := StepIsExplained(t, m, c, ds, input);
    match Step(t, c)
    case Return(_) =>
      ds', rest := ds, c.rest;
      ReturnIsRead(t, m, c, ds, input);
    case Continue(c') =>
      StepIsLed(t, m, c, ds, input);
      DescentIsDescent(m, c, c');
      ds', rest := RunIsLed(t, m, c', ds1, input);
  }

  lemma DescentIsDescent<V>(m: Certificate, c: Config<V>, c': Config<V>)
    requires c.oe != [] && c'.oe != [] && Descends(m, c, c')
    ensures |c'.rest| < |c.rest| ||
        (|c'.rest| == |c.rest| &&
         (Height(m, c') < Height(m, c) || (Height(m, c') == Height(m, c) && m.rank(Top(c')) < m.rank(Top(c)))))
  {
  }

  lemma ReturnIsRead<V(!new)>(t: Table<V>, m: Certificate, c: Config<V>, ds: seq<Tree>, input: seq<Token>)
    requires Valid(t, m) && Inv(t, c) && Explains(t, c, ds, input) && Led(t, c.oe, ds, Lookahead(c))
    requires Step(t, c).Return?
    ensures IsRead(t, ds, c.rest) && YieldAll(ds) + c.rest == input
  {
    hide Valid, Linked, Led, IsSuffix, MeaningAll;
    var p := ActionOf(t, c).production;
    assert p == t.accepting;
    assert ReducesIn(t, Top(c), p);
    ReduceFindsItsRightSide(t, m, c.oe, p);
    assert [] + ds == ds;
    LedSplits(t, c.oe, [], ds, Lookahead(c));
    LedBottom(t, c.oe[..|c.oe| - 2 * |ds|], FirstKind(YieldAll(ds), Lookahead(c)));
    assert Lookahead(c) == FirstKind(c.rest, END);
  }

  lemma LedBottom<V>(t: Table<V>, oe: seq<nat>, k: nat)
    requires Led(t, oe, [], k)
    ensures oe == [0]
  {
  }

  /** The parser exactly: it returns a value if and only if the value is the meaning of a derivation that the table
      leads along, from the accepting production, of the input up to where it stops reading. */
  lemma ParseIff<V(!new)>(t: Table<V>, m: Certificate, input: seq<Token>, v: V)
    requires Valid(t, m)
    ensures Parse(t, m, input) == Some(v) <==>
        exists ds, rest :: IsRead(t, ds, rest) && YieldAll(ds) + rest == input &&
                           v == Meaning(t, Branch(t.accepting, ds), NO_TOKEN, START_LOC).0
  {
    hide Valid, Linked, Led, IsRead, Means;
    if Parse(t, m, input).Some? {
      StartIsLed(t, input);
      var ds, rest := RunIsLed(t, m, Start(t, input), [], input);
      ReadIsParsed(t, m, ds, rest);
    }
    forall ds, rest | IsRead(t, ds, rest) && YieldAll(ds) + rest == input
      ensures Parse(t, m, input) == Some(Meaning(t, Branch(t.accepting, ds), NO_TOKEN, START_LOC).0)
    {
      ReadIsParsed(t, m, ds, rest);
    }
  }

  lemma StartIsLed<V(!new)>(t: Table<V>, input: seq<Token>)
    ensures var c := Start(t, input); Inv(t, c) && Explains(t, c, [], input) && Led(t, c.oe, [], Lookahead(c))
  {
    assert Start(t, input).ue[1..] == [] && Start(t, input).fe[1..] == [];
  }

  lemma ReadIsParsed<V(!new)>(t: Table<V>, m: Certificate, ds: seq<Tree>, rest: seq<Token>)
    requires Valid(t, m) && IsRead(t, ds, rest)
    ensures Parse(t, m, YieldAll(ds) + rest) == Some(Meaning(t, Branch(t.accepting, ds), NO_TOKEN, START_LOC).0)
  {
    hide Valid, Parse;
    ParseFollows(t, m, ds, rest);
  }
}

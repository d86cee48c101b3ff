/** Soundness of the driver: what it returns is the meaning of a derivation of what it read. */
module LRSoundness {
  import opened Options
  import opened LRParser

  datatype Tree = Leaf(token: Token) | Branch(production: nat, children: seq<Tree>)

  function Root<V>(t: Table<V>, d: Tree): nat {
    match d
    case Leaf(k) => k.kind
    case Branch(p, _) => if p < |t.productions| then t.productions[p].lhs else BOTTOM
  }

  function Roots<V>(t: Table<V>, ds: seq<Tree>): (r: seq<nat>)
    ensures |r| == |ds|
  {
    seq(|ds|, i requires 0 <= i < |ds| => Root(t, ds[i]))
  }

  function Yield(d: Tree): seq<Token> {
    match d
    case Leaf(k) => [k]
    case Branch(_, ds) => YieldAll(ds)
  }

  function YieldAll(ds: seq<Tree>): seq<Token> {
    if ds == [] then [] else YieldAll(ds[..|ds| - 1]) + Yield(ds[|ds| - 1])
  }

  /** Every inner node is an instance of its production. */
  ghost predicate Derivation<V>(t: Table<V>, d: Tree) {
    match d
    case Leaf(_) => true
    case Branch(p, ds) =>
      p < |t.productions| && Roots(t, ds) == t.productions[p].rhs && forall i | 0 <= i < |ds| :: Derivation(t, ds[i])
  }

  function LastOf(ks: seq<Token>, before: Token): Token {
    if ks == [] then before else ks[|ks| - 1]
  }

  function LastPlace(ls: seq<Loc>, below: Loc): Loc {
    if ls == [] then below else ls[|ls| - 1]
  }

  /** The value and place of a derivation, read after the token `before` and on top of an entry
      placed at `below`.  Semantic actions see the last token of the phrase. */
  function Meaning<V>(t: Table<V>, d: Tree, before: Token, below: Loc): (V, Loc) {
    match d
    case Leaf(k) => (t.leaf(k), k.loc)
    case Branch(p, ds) =>
      var (vs, ls) := MeaningAll(t, ds, before, below);
      (t.act(p, vs, ls, LastOf(YieldAll(ds), before)), Span(ls, below))
  }

  function MeaningAll<V>(t: Table<V>, ds: seq<Tree>, before: Token, below: Loc): (r: (seq<V>, seq<Loc>))
    ensures |r.0| == |r.1| == |ds|
  {
    if ds == [] then ([], [])
    else
      var n := |ds| - 1;
      var (vs, ls) := MeaningAll(t, ds[..n], before, below);
      var (v, l) := Meaning(t, ds[n], LastOf(YieldAll(ds[..n]), before), LastPlace(ls, below));
      (vs + [v], ls + [l])
  }

  lemma {:induction false} YieldSplits(a: seq<Tree>, b: seq<Tree>)
    ensures YieldAll(a + b) == YieldAll(a) + YieldAll(b)
  {
    if b == [] {
      assert a + b == a;
    } else {
      var n := |b| - 1;
      assert (a + b)[..|a + b| - 1] == a + b[..n];
      YieldSplits(a, b[..n]);
    }
  }

  lemma {:induction false} MeaningSplits<V>(t: Table<V>, a: seq<Tree>, b: seq<Tree>, before: Token, below: Loc)
    ensures var (va, la) := MeaningAll(t, a, before, below);
            var (vb, lb) := MeaningAll(t, b, LastOf(YieldAll(a), before), LastPlace(la, below));
            MeaningAll(t, a + b, before, below) == (va + vb, la + lb)
  {
    if b == [] {
      assert a + b == a;
      var (va, la) := MeaningAll(t, a, before, below);
      assert va + [] == va && la + [] == la;
    } else {
      var n := |b| - 1;
      assert (a + b)[..|a + b| - 1] == a + b[..n] && (a + b)[|a + b| - 1] == b[n];
      MeaningSplits(t, a, b[..n], before, below);
      YieldSplits(a, b[..n]);
      var (va, la) := MeaningAll(t, a, before, below);
      var (vb, lb) := MeaningAll(t, b[..n], LastOf(YieldAll(a), before), LastPlace(la, below));
      assert LastPlace(la + lb, below) == LastPlace(lb, LastPlace(la, below));
      assert LastOf(YieldAll(a + b[..n]), before) == LastOf(YieldAll(b[..n]), LastOf(YieldAll(a), before));
      var (v, l) := Meaning(t, b[n], LastOf(YieldAll(b[..n]), LastOf(YieldAll(a), before)),
          LastPlace(lb, LastPlace(la, below)));
      assert (va + vb) + [v] == va + (vb + [v]) && (la + lb) + [l] == la + (lb + [l]);
    }
  }

  /** The ghost forest behind a stack: one derivation for each symbol, meaning exactly the values and
      places held. */
  ghost predicate Means<V>(t: Table<V>, c: Config<V>, ds: seq<Tree>) {
    && InStep(c)
    && Symbols(c.oe) == Roots(t, ds)
    && (forall i | 0 <= i < |ds| :: Derivation(t, ds[i]))
    && c.fe[0] == START_LOC
    && MeaningAll(t, ds, NO_TOKEN, START_LOC) == (c.ue[1..], c.fe[1..])
  }

  /** Moreover the derivations together yield exactly the tokens consumed. */
  ghost predicate Explains<V>(t: Table<V>, c: Config<V>, ds: seq<Tree>, input: seq<Token>) {
    && Means(t, c, ds)
    && YieldAll(ds) + c.rest == input
    && c.last == LastOf(YieldAll(ds), NO_TOKEN)
  }

  /** Pushing a derivation's root with its meaning. */
  lemma PushMeans<V(!new)>(t: Table<V>, c: Config<V>, ds: seq<Tree>, d: Tree, s': nat)
    requires Inv(t, c) && Means(t, c, ds) && Derivation(t, d) && Transition(t, Top(c), Root(t, d), s')
    ensures var (v, l) := Meaning(t, d, LastOf(YieldAll(ds), NO_TOKEN), c.fe[|c.fe| - 1]);
            Means(t, Push(c, Root(t, d), s', v, l), ds + [d]) && YieldAll(ds + [d]) == YieldAll(ds) + Yield(d)
  {
    var ds' := ds + [d];
    var (v, l) := Meaning(t, d, LastOf(YieldAll(ds), NO_TOKEN), c.fe[|c.fe| - 1]);
    var c' := Push(c, Root(t, d), s', v, l);
    LinkedPush(t, c, Root(t, d), s', v, l);
    hide Transition, Linked, Derivation;
    assert ds'[..|ds|] == ds && ds'[|ds|] == d;
    assert LastPlace(c.fe[1..], START_LOC) == c.fe[|c.fe| - 1];
    assert c'.ue[1..] == c.ue[1..] + [v] && c'.fe[1..] == c.fe[1..] + [l];
    assert Roots(t, ds') == Roots(t, ds) + [Root(t, d)];
  }

  lemma ShiftIsExplained<V(!new)>(t: Table<V>, c: Config<V>, ds: seq<Tree>, input: seq<Token>, s': nat)
    requires Inv(t, c) && Explains(t, c, ds, input) && c.rest != [] && Transition(t, Top(c), c.rest[0].kind, s')
    ensures var k := c.rest[0];
            Explains(t, Push(c, k.kind, s', t.leaf(k), k.loc).(rest := c.rest[1..], last := k), ds + [Leaf(k)], input)
  {
    hide Linked, Means, Transition, YieldAll, Derivation, Yield, Meaning;
    var k := c.rest[0];
    LeafFacts(t, k, LastOf(YieldAll(ds), NO_TOKEN), c.fe[|c.fe| - 1]);
    PushMeans(t, c, ds, Leaf(k), s');
    assert (YieldAll(ds) + [k]) + c.rest[1..] == YieldAll(ds) + c.rest;
    MeansStill(t, Push(c, k.kind, s', t.leaf(k), k.loc), ds + [Leaf(k)], c.rest[1..], k);
  }

  lemma LeafFacts<V>(t: Table<V>, k: Token, before: Token, below: Loc)
    ensures Derivation(t, Leaf(k)) && Root(t, Leaf(k)) == k.kind && Yield(Leaf(k)) == [k]
    ensures Meaning(t, Leaf(k), before, below) == (t.leaf(k), k.loc)
  {
  }

  lemma MeansStill<V>(t: Table<V>, c: Config<V>, ds: seq<Tree>, rest: seq<Token>, last: Token)
    requires Means(t, c, ds)
    ensures Means(t, c.(rest := rest, last := last), ds)
  {
    hide Derivation, MeaningAll, Symbols, Roots;
  }

  /** Cutting the top off a stack whose entries above the bottom are `a + b`. */
  lemma CutStack<X>(a: seq<X>, b: seq<X>, stack: seq<X>)
    requires stack != [] && stack[1..] == a + b
    ensures var k := |stack| - |b|;
            0 < k <= |stack| && stack[..k][1..] == a && stack[k..] == b
            && stack[..k][k - 1] == (if a == [] then stack[0] else a[|a| - 1])
  {
    var k := |stack| - |b|;
    assert stack == [stack[0]] + a + b;
    assert stack[..k] == [stack[0]] + a;
  }

  /** The meanings of the derivations behind the topmost symbols, and of those below them. */
  lemma MeaningsBelow<V(!new)>(t: Table<V>, c: Config<V>, a: seq<Tree>, b: seq<Tree>)
    requires Means(t, c, a + b)
    ensures |b| < |c.ue| == |c.fe|
    ensures var k := |c.ue| - |b|;
            && MeaningAll(t, a, NO_TOKEN, START_LOC) == (c.ue[..k][1..], c.fe[..k][1..])
            && MeaningAll(t, b, LastOf(YieldAll(a), NO_TOKEN), c.fe[..k][k - 1]) == (c.ue[k..], c.fe[k..])
  {
    MeaningSplits(t, a, b, NO_TOKEN, START_LOC);
    var (va, la) := MeaningAll(t, a, NO_TOKEN, START_LOC);
    var (vb, lb) := MeaningAll(t, b, LastOf(YieldAll(a), NO_TOKEN), LastPlace(la, START_LOC));
    hide Derivation, YieldAll, Symbols, MeaningAll, Roots;
    CutStack(va, vb, c.ue);
    CutStack(la, lb, c.fe);
  }

  lemma RootsBelow<V(!new)>(t: Table<V>, c: Config<V>, a: seq<Tree>, b: seq<Tree>)
    requires Inv(t, c) && Means(t, c, a + b) && |b| < |c.ue|
    ensures Symbols(Pop(c, |b|).oe) == Roots(t, a)
  {
    SymbolsLength(t, c.oe);
    SymbolsBelow(c.oe, |b|);
    hide Symbols, Derivation, MeaningAll, Linked;
    assert Roots(t, a) == Roots(t, a + b)[..|a|];
  }

  /** The derivations of the topmost symbols, and what is below them. */
  lemma ForestBelow<V(!new)>(t: Table<V>, c: Config<V>, a: seq<Tree>, b: seq<Tree>)
    requires Inv(t, c) && Means(t, c, a + b)
    ensures |b| < |c.ue|
    ensures var below := Pop(c, |b|);
            && Means(t, below, a)
            && MeaningAll(t, b, LastOf(YieldAll(a), NO_TOKEN), below.fe[|below.fe| - 1]) ==
                (c.ue[|c.ue| - |b|..], c.fe[|c.fe| - |b|..])
  {
    MeaningsBelow(t, c, a, b);
    RootsBelow(t, c, a, b);
    hide Derivation, Linked, YieldAll, Symbols, MeaningAll, Roots;
    forall i | 0 <= i < |a| ensures Derivation(t, a[i]) {
      assert (a + b)[i] == a[i];
    }
  }

  lemma {:induction false} SymbolsBelow(oe: seq<nat>, n: nat)
    requires 2 * n < |oe|
    ensures |Symbols(oe)| >= n && Symbols(oe[..|oe| - 2 * n]) == Symbols(oe)[..|Symbols(oe)| - n]
  {
    if n > 0 {
      var below := oe[..|oe| - 2];
      SymbolsBelow(below, n - 1);
      assert below[..|below| - 2 * (n - 1)] == oe[..|oe| - 2 * n];
    } else {
      assert oe[..|oe|] == oe;
    }
  }

  lemma ReduceIsExplained<V(!new)>(t: Table<V>, c: Config<V>, ds: seq<Tree>, input: seq<Token>, p: nat, s': nat)
    returns (ds': seq<Tree>)
    requires Inv(t, c) && Explains(t, c, ds, input)
    requires p < |t.productions| && IsSuffix(t.productions[p].rhs, Symbols(c.oe))
    requires |t.productions[p].rhs| < |c.ue|
    requires t.goto(Top(Pop(c, |t.productions[p].rhs|)), t.productions[p].lhs) == Some(s')
    ensures var n := |t.productions[p].rhs|;
            var below := Pop(c, n);
            var values, places := c.ue[|c.ue| - n..], c.fe[|c.fe| - n..];
            Explains(t, Push(below, t.productions[p].lhs, s', t.act(p, values, places, c.last),
                             Span(places, below.fe[|below.fe| - 1])), ds', input)
    ensures var n := |t.productions[p].rhs|; n <= |ds| && ds' == ds[..|ds| - n] + [Branch(p, ds[|ds| - n..])]
  {
    hide Linked, Derivation, Symbols, IsSuffix, MeaningAll, Means, YieldAll;
    var n := |t.productions[p].rhs|;
    BranchIsDerivation(t, c, p, ds);
    LinkedBelow(t, c.oe, n);
    var a, b := ds[..|ds| - n], ds[|ds| - n..];
    assert a + b == ds;
    YieldSplits(a, b);
    ForestBelow(t, c, a, b);
    ds' := a + [Branch(p, b)];
    BranchIsExplained(t, Pop(c, n), a, b, input, p, s');
  }

  /** Pushing a reduced phrase, as its semantic action computes it. */
  lemma BranchIsExplained<V(!new)>(t: Table<V>, below: Config<V>, a: seq<Tree>, b: seq<Tree>, input: seq<Token>, p: nat,
                                   s': nat)
    requires Inv(t, below) && Means(t, below, a) && p < |t.productions| && Derivation(t, Branch(p, b))
    requires t.goto(Top(below), t.productions[p].lhs) == Some(s')
    requires YieldAll(a) + YieldAll(b) + below.rest == input
    requires below.last == LastOf(YieldAll(a) + YieldAll(b), NO_TOKEN)
    ensures var (values, places) := MeaningAll(t, b, LastOf(YieldAll(a), NO_TOKEN), below.fe[|below.fe| - 1]);
            Explains(t, Push(below, t.productions[p].lhs, s', t.act(p, values, places, below.last),
                             Span(places, below.fe[|below.fe| - 1])), a + [Branch(p, b)], input)
  {
    hide Derivation, MeaningAll, Means, YieldAll, Linked;
    assert LastOf(YieldAll(b), LastOf(YieldAll(a), NO_TOKEN)) == below.last;
    PushMeans(t, below, a, Branch(p, b), s');
  }

  lemma BranchIsDerivation<V>(t: Table<V>, c: Config<V>, p: nat, ds: seq<Tree>)
    requires p < |t.productions| && IsSuffix(t.productions[p].rhs, Symbols(c.oe)) && Means(t, c, ds)
    ensures |t.productions[p].rhs| <= |ds| && Derivation(t, Branch(p, ds[|ds| - |t.productions[p].rhs|..]))
  {
    hide Symbols, MeaningAll;
    var b := ds[|ds| - |t.productions[p].rhs|..];
    assert Roots(t, b) == Roots(t, ds)[|ds| - |b|..];
  }

  lemma ReturnIsExplained<V(!new)>(t: Table<V>, c: Config<V>, ds: seq<Tree>, input: seq<Token>)
    requires Inv(t, c) && Explains(t, c, ds, input)
    requires ActionOf(t, c) == Reduce(t.accepting) && Step(t, c).Return?
    requires t.accepting < |t.productions| && Symbols(c.oe) == t.productions[t.accepting].rhs
    ensures Accepts(t, Branch(t.accepting, ds), Step(t, c).value, input)
  {
    SymbolsLength(t, c.oe);
    var n := |t.productions[t.accepting].rhs|;
    assert c.ue[|c.ue| - n..] == c.ue[1..] && c.fe[|c.fe| - n..] == c.fe[1..];
  }

  lemma ReduceStepIsExplained<V(!new)>(t: Table<V>, m: Certificate, c: Config<V>, ds: seq<Tree>, input: seq<Token>,
                                       p: nat)
    returns (ds': seq<Tree>)
    requires Valid(t, m) && Inv(t, c) && Explains(t, c, ds, input) && ActionOf(t, c) == Reduce(p)
    ensures StepExplained(t, Step(t, c), ds', input) && ds' == Grown(t, c, ds)
  {
    hide Valid, Explains, Accepts, IsSuffix, Symbols, Linked;
    ds' := ds;
    assert ReducesIn(t, Top(c), p);
    ReduceFindsItsRightSide(t, m, c.oe, p);
    hide ReducesIn;
    var r := Step(t, c);
    if r.Return? {
      ReturnIsExplained(t, c, ds, input);
    } else if r.Continue? {
      var below := Pop(c, |t.productions[p].rhs|);
      ds' := ReduceIsExplained(t, c, ds, input, p, t.goto(Top(below), t.productions[p].lhs).value);
    }
  }

  /** The derivations behind a stack after one more step. */
  function Grown<V>(t: Table<V>, c: Config<V>, ds: seq<Tree>): seq<Tree>
    requires InStep(c)
  {
    match ActionOf(t, c)
    case Shift(_) => if c.rest == [] then ds else ds + [Leaf(c.rest[0])]
    case Reduce(p) =>
      if !Step(t, c).Continue? || p >= |t.productions| || |t.productions[p].rhs| > |ds| then ds
      else ds[..|ds| - |t.productions[p].rhs|] + [Branch(p, ds[|ds| - |t.productions[p].rhs|..])]
    case Error => ds
  }

  ghost predicate StepExplained<V>(t: Table<V>, r: Outcome<V>, ds: seq<Tree>, input: seq<Token>) {
    match r
    case Continue(c) => Explains(t, c, ds, input)
    case Return(v) => Accepts(t, Branch(t.accepting, ds), v, input)
    case SyntaxError => true
  }

  /** One step keeps a configuration explained; a step that returns gives a derivation of all that
      has been read. */
  lemma StepIsExplained<V(!new)>(t: Table<V>, m: Certificate, c: Config<V>, ds: seq<Tree>, input: seq<Token>)
    returns (ds': seq<Tree>)
    requires Valid(t, m) && Inv(t, c) && Explains(t, c, ds, input)
    ensures StepExplained(t, Step(t, c), ds', input) && ds' == Grown(t, c, ds)
  {
    hide Valid, Explains, Accepts, Linked;
    ds' := ds;
    match ActionOf(t, c)
    case Error =>
    case Shift(s') =>
      StepIsTotal(t, m, c);
      ShiftIsExplained(t, c, ds, input, s');
      ds' := ds + [Leaf(c.rest[0])];
    case Reduce(p) =>
      ds' := ReduceStepIsExplained(t, m, c, ds, input, p);
  }

  /** `d` is a derivation from the accepting production of a prefix of `input`, and means `v`. */
  ghost predicate Accepts<V>(t: Table<V>, d: Tree, v: V, input: seq<Token>) {
    && d.Branch? && d.production == t.accepting && Derivation(t, d)
    && Yield(d) <= input
    && v == Meaning(t, d, NO_TOKEN, START_LOC).0
  }

  lemma {:induction false} RunIsSound<V(!new)>(t: Table<V>, m: Certificate, c: Config<V>, ds: seq<Tree>,
                                               input: seq<Token>)
    returns (d: Tree)
    requires Valid(t, m) && Inv(t, c) && Explains(t, c, ds, input) && Run(t, m, c).Some?
    ensures Accepts(t, d, Run(t, m, c).value, input)
    decreases |c.rest|, Height(m, c), m.rank(Top(c))
  {
    StepKeeps(t, m, c);
    var ds' := StepIsExplained(t, m, c, ds, input);
    match Step(t, c)
    case Return(_) => d := Branch(t.accepting, ds');
    case Continue(c') => d := RunIsSound(t, m, c', ds', input);
  }

  /** LR soundness: for a valid table, a returned value is the meaning of a derivation from the
      accepting production whose yield is what was read. */
  lemma ParseIsSound<V(!new)>(t: Table<V>, m: Certificate, input: seq<Token>) returns (d: Tree)
    requires Valid(t, m) && Parse(t, m, input).Some?
    ensures Accepts(t, d, Parse(t, m, input).value, input)
  {
    assert Start(t, input).ue[1..] == [] && Start(t, input).fe[1..] == [];
    d := RunIsSound(t, m, Start(t, input), [], input);
  }

  /** When the accepting production ends in a terminal that only ends the input, that is all of it. */
  lemma ParseReadsEverything<V(!new)>(t: Table<V>, m: Certificate, input: seq<Token>, eof: nat) returns (d: Tree)
    requires Valid(t, m) && Parse(t, m, input).Some? && t.accepting < |t.productions|
    requires t.productions[t.accepting].rhs != [] &&
        t.productions[t.accepting].rhs[|t.productions[t.accepting].rhs| - 1] == eof
    requires forall p | 0 <= p < |t.productions| :: t.productions[p].lhs != eof
    requires eof != BOTTOM && forall i | 0 <= i < |input| - 1 :: input[i].kind != eof
    ensures Accepts(t, d, Parse(t, m, input).value, input) && Yield(d) == input
  {
    d := ParseIsSound(t, m, input);
    var n := |d.children| - 1;
    assert Roots(t, d.children)[n] == eof;
    assert Derivation(t, d.children[n]);
    assert d.children[n].Leaf? && Yield(d.children[n]) == [d.children[n].token];
    assert Yield(d) == YieldAll(d.children) == YieldAll(d.children[..n]) + Yield(d.children[n]);
    assert Yield(d)[|Yield(d)| - 1] == input[|Yield(d)| - 1];
  }
}

/** The table-driven shift/reduce driver, over an arbitrary table.

    The driver keeps three stacks in step: states and symbols interleaved, semantic values, and
    locations.  A certificate says of a table what the driver relies on: which symbols are surely on
    top of the stack in each state, and a measure that every reduction lowers.
 */
module LRParser {
  import opened Options

  datatype Loc = Loc(firstLine: nat, lastLine: nat, firstColumn: nat, lastColumn: nat)
  datatype Token = Token(kind: nat, text: string, line: nat, loc: Loc)

  /** What a token is apart from where it stands. */
  datatype Word = Word(kind: nat, text: string)

  function WordOf(k: Token): Word {
    Word(k.kind, k.text)
  }

  function WordsOf(ks: seq<Token>): seq<Word> {
    seq(|ks|, i requires 0 <= i < |ks| => WordOf(ks[i]))
  }

  datatype Action = Shift(state: nat) | Reduce(production: nat) | Error

  /** The driver itself uses only the left-hand side and the length of a production. */
  datatype Production = Production(lhs: nat, rhs: seq<nat>)

  datatype Table<!V> = Table(
    action: (nat, nat) -> Action,
    defaultAction: nat -> Option<nat>,
    goto: (nat, nat) -> Option<nat>,
    productions: seq<Production>,
    accepting: nat,                                // its semantic action returns from the driver
    leaf: Token -> V,
    act: (nat, seq<V>, seq<Loc>, Token) -> V,      // production, its values, their places, last token shifted
    nothing: V)

  /** Ghost knowledge about a table.  `known(s)` is a suffix of what lies on the stack in state s,
      with BOTTOM marking the end of the stack; `pending` and `rank` make up the measure. */
  datatype Certificate = Certificate(known: nat -> seq<nat>, pending: nat -> nat, rank: nat -> nat)

  const BOTTOM: nat := 0
  const END: nat := 1

  datatype Config<V> = Config(oe: seq<nat>, ue: seq<V>, fe: seq<Loc>, rest: seq<Token>, last: Token)

  datatype Outcome<V> = Continue(next: Config<V>) | Return(value: V) | SyntaxError

  const START_LOC := Loc(1, 1, 0, 0)
  const NO_TOKEN := Token(BOTTOM, "", 0, START_LOC)

  function Start<V>(t: Table<V>, input: seq<Token>): Config<V> {
    Config([0], [t.nothing], [START_LOC], input, NO_TOKEN)
  }

  function Top<V>(c: Config<V>): nat
    requires c.oe != []
  {
    c.oe[|c.oe| - 1]
  }

  /** Past its last token the lexer answers END for ever. */
  function Lookahead<V>(c: Config<V>): nat {
    if c.rest == [] then END else c.rest[0].kind
  }

  /** A state with a default action reduces without a look at the input. */
  function ActionOf<V>(t: Table<V>, c: Config<V>): Action
    requires c.oe != []
  {
    match t.defaultAction(Top(c))
    case Some(p) => Reduce(p)
    case None => t.action(Top(c), Lookahead(c))
  }

  /** What the driver does in state `s` on lookahead `k`. */
  function Resolved<V>(t: Table<V>, s: nat, k: nat): Action {
    match t.defaultAction(s)
    case Some(p) => Reduce(p)
    case None => t.action(s, k)
  }

  // ----- What is kept -----

  ghost predicate IsSuffix(s: seq<nat>, of: seq<nat>) {
    |s| <= |of| && s == of[|of| - |s|..]
  }

  ghost predicate ReducesIn<V(!new)>(t: Table<V>, s: nat, p: nat) {
    t.defaultAction(s) == Some(p) || exists k :: t.action(s, k) == Reduce(p)
  }

  ghost predicate Transition<V(!new)>(t: Table<V>, s: nat, x: nat, s': nat) {
    t.action(s, x) == Shift(s') || t.goto(s, x) == Some(s')
  }

  /** Reducing by `p` in state `s` and landing in `s'` lowers the measure. */
  predicate Lowers<V>(t: Table<V>, m: Certificate, s: nat, p: nat, s': nat)
    requires p < |t.productions|
  {
    var n := |t.productions[p].rhs|;
    1 + m.pending(s') < n + m.pending(s) ||
    (1 + m.pending(s') == n + m.pending(s) && m.rank(s') < m.rank(s))
  }

  /** Every reduce state has the production's right-hand side on the stack; the accepting one has it
      as the whole stack; END is never shifted; reductions lower the measure. */
  ghost predicate Valid<V(!new)>(t: Table<V>, m: Certificate) {
    && m.known(0) == [BOTTOM]
    && (forall s: nat, x: nat, s': nat | Transition(t, s, x, s') ::
          x != BOTTOM && IsSuffix(m.known(s'), m.known(s) + [x]))
    && (forall s: nat, s': nat :: t.action(s, END) != Shift(s'))
    && (forall s: nat, p: nat | ReducesIn(t, s, p) :: ReducesWell(t, m, s, p))
    && (forall s: nat, p: nat, u: nat, s': nat | ReducesIn(t, s, p) && t.goto(u, t.productions[p].lhs) == Some(s') ::
          Lowers(t, m, s, p, s'))
  }

  ghost predicate ReducesWell<V>(t: Table<V>, m: Certificate, s: nat, p: nat) {
    && p < |t.productions|
    && IsSuffix(t.productions[p].rhs, m.known(s))
    && BOTTOM !in t.productions[p].rhs
    && (p == t.accepting ==> m.known(s) == [BOTTOM] + t.productions[p].rhs)
  }

  /** A stack of states and symbols in which every two neighbouring states are linked by a transition. */
  ghost predicate Linked<V(!new)>(t: Table<V>, oe: seq<nat>) {
    var n := |oe|;
    if n <= 1 then oe == [0]
    else n >= 3 && Transition(t, oe[n - 3], oe[n - 2], oe[n - 1]) && Linked(t, oe[..n - 2])
  }

  /** The three stacks are in step. */
  ghost predicate InStep<V>(c: Config<V>) {
    |c.oe| == 2 * |c.ue| - 1 == 2 * |c.fe| - 1 && |c.ue| >= 1
  }

  ghost predicate Inv<V(!new)>(t: Table<V>, c: Config<V>) {
    InStep(c) && Linked(t, c.oe)
  }

  /** The symbols on the stack, bottom first. */
  function Symbols(oe: seq<nat>): seq<nat> {
    if |oe| < 3 then [] else Symbols(oe[..|oe| - 2]) + [oe[|oe| - 2]]
  }

  lemma {:induction false} SymbolsLength<V(!new)>(t: Table<V>, oe: seq<nat>)
    requires Linked(t, oe)
    ensures |oe| == 2 * |Symbols(oe)| + 1
  {
    if |oe| > 1 { SymbolsLength(t, oe[..|oe| - 2]); }
  }

  lemma SuffixOfExtended(a: seq<nat>, b: seq<nat>, c: seq<nat>, x: nat)
    requires IsSuffix(a, b + [x]) && IsSuffix(b, c)
    ensures IsSuffix(a, c + [x])
  {
    if a != [] {
      var d := |c| - |b|;
      assert c + [x] == c[..d] + (b + [x]);
      assert a == (b + [x])[|b| + 1 - |a|..];
      assert (c + [x])[|c| + 1 - |a|..] == (b + [x])[|b| + 1 - |a|..];
    }
  }

  lemma TransitionKnows<V(!new)>(t: Table<V>, m: Certificate, s: nat, x: nat, s': nat)
    requires Valid(t, m) && Transition(t, s, x, s')
    ensures x != BOTTOM && IsSuffix(m.known(s'), m.known(s) + [x])
  {
  }

  lemma LinkedTop<V(!new)>(t: Table<V>, oe: seq<nat>)
    requires Linked(t, oe)
    ensures if |oe| <= 1 then oe == [0]
            else |oe| >= 3 && Transition(t, oe[|oe| - 3], oe[|oe| - 2], oe[|oe| - 1]) && Linked(t, oe[..|oe| - 2])
  {
    hide Transition;
  }

  lemma SymbolsTop(oe: seq<nat>)
    ensures if |oe| < 3 then Symbols(oe) == [] else Symbols(oe) == Symbols(oe[..|oe| - 2]) + [oe[|oe| - 2]]
  {
  }

  lemma BottomKnows<V(!new)>(t: Table<V>, m: Certificate)
    requires Valid(t, m)
    ensures m.known(0) == [BOTTOM] && IsSuffix([BOTTOM], [BOTTOM] + [])
  {
    assert [BOTTOM] + [] == [BOTTOM];
  }

  /** In a linked stack the symbols known in the top state are there. */
  lemma {:induction false} KnownIsOnStack<V(!new)>(t: Table<V>, m: Certificate, oe: seq<nat>)
    requires Valid(t, m) && Linked(t, oe)
    ensures oe != [] && IsSuffix(m.known(oe[|oe| - 1]), [BOTTOM] + Symbols(oe)) && BOTTOM !in Symbols(oe)
  {
    hide Valid, Transition, Linked, IsSuffix, Symbols;
    LinkedTop(t, oe);
    SymbolsTop(oe);
    if |oe| > 1 {
      var s, x, s', below := oe[|oe| - 3], oe[|oe| - 2], oe[|oe| - 1], oe[..|oe| - 2];
      TransitionKnows(t, m, s, x, s');
      KnownIsOnStack(t, m, below);
      SuffixOfExtended(m.known(s'), m.known(s), [BOTTOM] + Symbols(below), x);
      assert ([BOTTOM] + Symbols(below)) + [x] == [BOTTOM] + Symbols(oe);
    } else {
      BottomKnows(t, m);
    }
  }

  lemma ValidReduces<V(!new)>(t: Table<V>, m: Certificate, s: nat, p: nat)
    requires Valid(t, m) && ReducesIn(t, s, p)
    ensures ReducesWell(t, m, s, p)
  {
  }

  /** When the driver reduces by `p`, the right-hand side of `p` is on top of the stack, and is the
      whole stack when `p` is the accepting production. */
  lemma ReduceFindsItsRightSide<V(!new)>(t: Table<V>, m: Certificate, oe: seq<nat>, p: nat)
    requires Valid(t, m) && Linked(t, oe) && ReducesIn(t, oe[|oe| - 1], p)
    ensures p < |t.productions| && IsSuffix(t.productions[p].rhs, Symbols(oe))
    ensures p == t.accepting ==> Symbols(oe) == t.productions[p].rhs
  {
    hide Valid, ReducesIn, Symbols, IsSuffix;
    KnownIsOnStack(t, m, oe);
    ValidReduces(t, m, oe[|oe| - 1], p);
    var rhs, known, symbols := t.productions[p].rhs, m.known(oe[|oe| - 1]), Symbols(oe);
    assert BOTTOM in [BOTTOM] + symbols;
    SuffixTransitive(rhs, known, [BOTTOM] + symbols);
    SuffixOrWhole(rhs, BOTTOM, symbols);
    if p == t.accepting {
      assert BOTTOM in known;
      SuffixOrWhole(known, BOTTOM, symbols);
      if |known| <= |symbols| {
        SuffixMember(known, symbols, BOTTOM);
        assert false;
      }
      assert known[1..] == rhs && ([BOTTOM] + symbols)[1..] == symbols;
    }
  }

  lemma SuffixTransitive(a: seq<nat>, b: seq<nat>, c: seq<nat>)
    requires IsSuffix(a, b) && IsSuffix(b, c)
    ensures IsSuffix(a, c)
  {
  }

  lemma SuffixMember(a: seq<nat>, b: seq<nat>, x: nat)
    requires IsSuffix(a, b) && x in a
    ensures x in b
  {
  }

  lemma SuffixOrWhole(a: seq<nat>, x: nat, b: seq<nat>)
    requires IsSuffix(a, [x] + b)
    ensures if |a| <= |b| then IsSuffix(a, b) else a == [x] + b
  {
    var all := [x] + b;
    if |a| <= |b| { assert all[|all| - |a|..] == b[|b| - |a|..]; } else { assert all[0..] == all; }
  }

  // ----- One step of the driver -----

  /** Locations of a reduced phrase: from its first symbol to its last; an empty phrase sits on the
      entry below it. */
  function Span(places: seq<Loc>, below: Loc): Loc {
    if places == [] then below
    else
      var a, z := places[0], places[|places| - 1];
      Loc(a.firstLine, z.lastLine, a.firstColumn, z.lastColumn)
  }

  /** A phrase of two parts goes from where the first begins to where the second ends. */
  lemma SpanJoins(a: seq<Loc>, b: seq<Loc>, l: Loc, below: Loc)
    requires a != [] && b != []
    ensures var p, q := Span(a, below), Span(b, below);
            Span(a + b, below) == Loc(p.firstLine, q.lastLine, p.firstColumn, q.lastColumn)
    ensures Span([l], below) == l && Span([], below) == below
  {
  }

  function Push<V>(c: Config<V>, symbol: nat, state: nat, value: V, place: Loc): Config<V> {
    c.(oe := c.oe + [symbol, state], ue := c.ue + [value], fe := c.fe + [place])
  }

  function Pop<V>(c: Config<V>, n: nat): Config<V>
    requires InStep(c) && n < |c.ue|
  {
    c.(oe := c.oe[..|c.oe| - 2 * n], ue := c.ue[..|c.ue| - n], fe := c.fe[..|c.fe| - n])
  }

  /** Shift, reduce or stop.  A shift at the end of the input and a reduction of more than is on the
      stack do not arise for a valid table (StepKeeps). */
  function Step<V>(t: Table<V>, c: Config<V>): Outcome<V>
    requires InStep(c)
  {
    match ActionOf(t, c)
    case Error => SyntaxError
    case Shift(s') =>
      if c.rest == [] then SyntaxError
      else
        var k := c.rest[0];
        Continue(Push(c, k.kind, s', t.leaf(k), k.loc).(rest := c.rest[1..], last := k))
    case Reduce(p) =>
      if p >= |t.productions| || |t.productions[p].rhs| >= |c.ue| then SyntaxError
      else
        var n := |t.productions[p].rhs|;
        var below := Pop(c, n);
        var values, places := c.ue[|c.ue| - n..], c.fe[|c.fe| - n..];
        var value := t.act(p, values, places, c.last);
        if p == t.accepting then Return(value)
        else
          match t.goto(Top(below), t.productions[p].lhs)
          case None => SyntaxError
          case Some(s') =>
            Continue(Push(below, t.productions[p].lhs, s', value, Span(places, below.fe[|below.fe| - 1])))
  }

  lemma ShiftSteps<V>(t: Table<V>, c: Config<V>, s': nat)
    requires InStep(c) && ActionOf(t, c) == Shift(s') && c.rest != []
    ensures var k := c.rest[0];
            Step(t, c) == Continue(Push(c, k.kind, s', t.leaf(k), k.loc).(rest := c.rest[1..], last := k))
  {
    hide ActionOf;
  }

  lemma ReduceSteps<V>(t: Table<V>, c: Config<V>, p: nat)
    requires InStep(c) && ActionOf(t, c) == Reduce(p) && p < |t.productions| && |t.productions[p].rhs| < |c.ue|
    ensures var n, lhs := |t.productions[p].rhs|, t.productions[p].lhs;
            var below := Pop(c, n);
            var values, places := c.ue[|c.ue| - n..], c.fe[|c.fe| - n..];
            var value := t.act(p, values, places, c.last);
            Step(t, c) ==
              if p == t.accepting then Return(value)
              else
                match t.goto(Top(below), lhs)
                case None => SyntaxError
                case Some(s') => Continue(Push(below, lhs, s', value, Span(places, below.fe[|below.fe| - 1])))
  {
    hide ActionOf, Span;
  }

  /** The measure: input left, then stack height corrected by the state, then rank. */
  function Height<V>(m: Certificate, c: Config<V>): nat
    requires c.oe != []
  {
    |c.ue| + m.pending(Top(c))
  }

  lemma {:induction false} LinkedBelow<V(!new)>(t: Table<V>, oe: seq<nat>, n: nat)
    requires Linked(t, oe) && 2 * n < |oe|
    ensures Linked(t, oe[..|oe| - 2 * n])
  {
    if n > 0 {
      var below := oe[..|oe| - 2];
      LinkedBelow(t, below, n - 1);
      assert below[..|below| - 2 * (n - 1)] == oe[..|oe| - 2 * n];
    } else {
      assert oe[..|oe|] == oe;
    }
  }

  lemma LinkedPush<V(!new)>(t: Table<V>, c: Config<V>, x: nat, s': nat, v: V, l: Loc)
    requires Inv(t, c) && Transition(t, Top(c), x, s')
    ensures Inv(t, Push(c, x, s', v, l)) && Symbols(Push(c, x, s', v, l).oe) == Symbols(c.oe) + [x]
  {
    assert (c.oe + [x, s'])[..|c.oe|] == c.oe;
  }

  /** The step from `c` to `c'` lowers the measure. */
  predicate Descends<V>(m: Certificate, c: Config<V>, c': Config<V>)
    requires c.oe != [] && c'.oe != []
  {
    |c'.rest| < |c.rest| ||
    (c'.rest == c.rest &&
     (Height(m, c') < Height(m, c) || (Height(m, c') == Height(m, c) && m.rank(Top(c')) < m.rank(Top(c)))))
  }

  /** Every step keeps the stacks in step and linked, and lowers the measure. */
  lemma StepKeeps<V(!new)>(t: Table<V>, m: Certificate, c: Config<V>)
    requires Valid(t, m) && Inv(t, c)
    ensures var r := Step(t, c); r.Continue? ==> Inv(t, r.next) && Descends(m, c, r.next)
  {
    var r := Step(t, c);
    if r.Continue? {
      match ActionOf(t, c)
      case Shift(s') =>
        hide Valid, ActionOf, Linked;
        var k := c.rest[0];
        LinkedPush(t, c, k.kind, s', t.leaf(k), k.loc);
      case Reduce(p) =>
        var n := |t.productions[p].rhs|;
        var below := Pop(c, n);
        var s' := t.goto(Top(below), t.productions[p].lhs).value;
        ReductionLowers(t, m, c, p, Top(below), s');
        ReduceKeeps(t, m, c, p, s', t.act(p, c.ue[|c.ue| - n..], c.fe[|c.fe| - n..], c.last),
                    Span(c.fe[|c.fe| - n..], below.fe[|below.fe| - 1]));
        hide Valid, ActionOf, Inv, Descends;
    }
  }

  lemma ReduceKeeps<V(!new)>(t: Table<V>, m: Certificate, c: Config<V>, p: nat, s': nat, v: V, l: Loc)
    requires Inv(t, c) && p < |t.productions| && |t.productions[p].rhs| < |c.ue| && Lowers(t, m, Top(c), p, s')
    requires t.goto(Top(Pop(c, |t.productions[p].rhs|)), t.productions[p].lhs) == Some(s')
    ensures var next := Push(Pop(c, |t.productions[p].rhs|), t.productions[p].lhs, s', v, l);
            Inv(t, next) && Descends(m, c, next)
  {
    hide Linked, Lowers, Descends;
    var below := Pop(c, |t.productions[p].rhs|);
    LinkedBelow(t, c.oe, |t.productions[p].rhs|);
    LinkedPush(t, below, t.productions[p].lhs, s', v, l);
    ReduceLowers(t, m, c, p, s', v, l);
  }

  lemma ReductionLowers<V(!new)>(t: Table<V>, m: Certificate, c: Config<V>, p: nat, below: nat, s': nat)
    requires Valid(t, m) && c.oe != [] && ActionOf(t, c) == Reduce(p) && p < |t.productions|
    requires t.goto(below, t.productions[p].lhs) == Some(s')
    ensures Lowers(t, m, Top(c), p, s')
  {
    assert ReducesIn(t, Top(c), p);
  }

  lemma ReduceLowers<V>(t: Table<V>, m: Certificate, c: Config<V>, p: nat, s': nat, v: V, l: Loc)
    requires InStep(c) && p < |t.productions| && |t.productions[p].rhs| < |c.ue| && Lowers(t, m, Top(c), p, s')
    ensures Descends(m, c, Push(Pop(c, |t.productions[p].rhs|), t.productions[p].lhs, s', v, l))
  {
  }

  lemma EndIsNeverShifted<V(!new)>(t: Table<V>, m: Certificate, s: nat, s': nat)
    requires Valid(t, m)
    ensures t.action(s, END) != Shift(s')
  {
  }

  /** For a valid table, the driver fails only where the table has no action or no goto. */
  lemma StepIsTotal<V(!new)>(t: Table<V>, m: Certificate, c: Config<V>)
    requires Valid(t, m) && Inv(t, c)
    ensures match ActionOf(t, c)
            case Error => true
            case Shift(_) => c.rest != []
            case Reduce(p) => p < |t.productions| && |t.productions[p].rhs| < |c.ue|
  {
    hide Valid, Linked, Symbols;
    match ActionOf(t, c)
    case Error =>
    case Shift(s') => EndIsNeverShifted(t, m, Top(c), s');
    case Reduce(p) =>
      assert ReducesIn(t, Top(c), p);
      ReduceFindsItsRightSide(t, m, c.oe, p);
      SymbolsLength(t, c.oe);
  }

  /** The driver to its end: on a certified table it terminates on every input. */
  function Run<V(!new)>(t: Table<V>, ghost m: Certificate, c: Config<V>): Option<V>
    requires Valid(t, m) && Inv(t, c)
    decreases |c.rest|, Height(m, c), m.rank(Top(c))
  {
    StepKeeps(t, m, c);
    match Step(t, c)
    case SyntaxError => None
    case Return(v) => Some(v)
    case Continue(c') => Run(t, m, c')
  }

  function Parse<V(!new)>(t: Table<V>, ghost m: Certificate, input: seq<Token>): Option<V>
    requires Valid(t, m)
  {
    Run(t, m, Start(t, input))
  }
}

/** Which derivations respect the precedence of operators, said of derivations by the grammar with no parser in
    sight.
 */
module Precedence {
  import opened LRSoundness
  import opened Grammar

  // ----- Operators -----

  /** The infix operators + - * / % && || === !== > < >= <= in the order of their symbols. */
  predicate IsBinary(k: nat) {
    34 <= k <= 38 || 40 <= k <= 47
  }

  predicate IsInfix(k: nat) {
    IsBinary(k) || k == QUESTION
  }

  /** Precedence, from the conditional up to the multiplicative operators. */
  function Level(k: nat): nat {
    if k == QUESTION then 1
    else if k == OR then 2
    else if k == AND then 3
    else if k == 42 || k == 43 then 4
    else if 44 <= k <= 47 then 5
    else if k == PLUS || k == MINUS then 6
    else 7
  }

  const PREFIX_LEVEL: nat := 8

  /** Tokens that go on with an expression: infix operators, the arrow, and what subscripts or selects. */
  predicate Continues(k: nat) {
    IsInfix(k) || k == ARROW || k == OPEN_BRACKET || k == DOT
  }

  /** How tightly they bind. */
  function Tightness(k: nat): nat
    requires Continues(k)
  {
    if IsInfix(k) then Level(k) else if k == ARROW then 0 else PREFIX_LEVEL + 1
  }

  /** The same of any token: less than nothing if it goes on with none. */
  function Pull(k: nat): int {
    if Continues(k) then Tightness(k) else -1
  }

  /** Productions of an expression that go on with another. */
  predicate IsContinued(p: nat) {
    27 <= p <= 31 || 35 <= p <= 42 || 44 <= p <= 46 || p == 54
  }

  /** The token that they go on with. */
  function Continuation(p: nat): (k: nat)
    requires IsContinued(p)
    ensures Continues(k)
  {
    if p <= 31 then p + 7 else if p <= 42 then p + 5 else if p == 44 then ARROW else if p == 45 then OPEN_BRACKET
    else if p == 46 then DOT else QUESTION
  }

  /** Productions that end in an operand. */
  predicate IsOpen(p: nat) {
    27 <= p <= 44 || p == 54
  }

  /** How tightly they hold on to it. */
  function HoldOf(p: nat): nat
    requires IsOpen(p)
  {
    if p <= 31 then Level(p + 7) else if p <= 34 then PREFIX_LEVEL else if p <= 42 then Level(p + 5) else 0
  }

  // ----- Derivations -----

  function Symbol(d: Tree): nat {
    match d
    case Leaf(k) => k.kind
    case Branch(p, _) => ProductionAt(p).lhs
  }

  /** Every inner node is an instance of a production, and no leaf is a phrase. */
  predicate IsDerivation(d: Tree) {
    match d
    case Leaf(k) => !IsPhrase(k.kind)
    case Branch(p, ds) =>
      && 1 < p < 82 && |ds| == |ProductionAt(p).rhs|
      && (forall i | 0 <= i < |ds| :: Symbol(ds[i]) == ProductionAt(p).rhs[i] && IsDerivation(ds[i]))
  }

  // ----- Precedence -----

  /** Whatever goes on with an expression along the left edge binds tighter than `h`. */
  predicate Opens(d: Tree, h: int) {
    d.Branch? && IsContinued(d.production) && d.children != [] ==>
      h < Tightness(Continuation(d.production)) && Opens(d.children[0], h)
  }

  /** Whatever ends in an operand along the right edge holds on to it against a token that binds as tightly as `t`. */
  predicate Closes(d: Tree, t: int) {
    d.Branch? && IsOpen(d.production) && d.children != [] ==>
      t <= HoldOf(d.production) && Closes(d.children[|d.children| - 1], t)
  }

  /** A list of one name. */
  predicate IsOneName(d: Tree) {
    d.Branch? && (d.production == 80 || (d.production == 77 && d.children != [] && IsOneName(d.children[0])))
  }

  /** An expression or assignment whose left edge begins with `{` `}`. */
  predicate BeginsWithEmptyObject(d: Tree) {
    && d.Branch? && d.children != []
    && if d.production == 52 then |d.children| > 1 && IsNoPairs(d.children[1])
       else (IsContinued(d.production) || d.production == 19) && BeginsWithEmptyObject(d.children[0])
  }

  predicate IsNoPairs(d: Tree) {
    d.Branch? && d.production == 73
  }

  /** Operators group by precedence, equal ones to the left: a left operand is closed against its operator, and a
      right one opens only with what binds tighter.  Besides, the parameters of an arrow in parentheses are not a
      single name, which is an expression there, and no statement begins with an empty object, which is a block
      there. */
  predicate Grouped(d: Tree) {
    d.Branch? ==>
      && (forall i | 0 <= i < |d.children| :: Grouped(d.children[i]))
      && GroupsParts(d.production, d.children)
  }

  predicate GroupsParts(p: nat, ds: seq<Tree>) {
    ds != [] ==>
      && (IsContinued(p) ==> Closes(ds[0], Tightness(Continuation(p))))
      && (IsOpen(p) ==> Opens(ds[|ds| - 1], HoldOf(p)))
      && (p == 43 && |ds| > 1 ==> !IsOneName(ds[1]))
      && (p == 12 || p == 13 ==> !BeginsWithEmptyObject(ds[0]))
  }
}

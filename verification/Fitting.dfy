/** Which derivations fit a place, put together from which of their parts do. */
module Fitting {
  import opened LRParser
  import opened LRSoundness
  import opened LRCompleteness
  import opened Grammar
  import opened Precedence
  import opened WholeTable
  import opened Places
  import opened Endings

  // ----- What fits -----

  /** A derivation fits state `s` before a token of kind `k`: it is grouped by precedence, also with what stands on
      its left and its right, and is neither an empty object where a block would be read nor a single parameter where
      an expression would be. */
  ghost predicate Fits(d: Tree, s: nat, k: nat) {
    && Grouped(d) && Opens(d, HoldAt(s)) && Closes(d, Pull(k))
    && (TakesStatement(s) ==> !BeginsWithEmptyObject(d)) && (s == 11 ==> !IsNoPairs(d)) && (s == 25 ==> !IsOneName(d))
  }

  /** What stands behind part `i`. */
  function Ahead(ds: seq<Tree>, i: nat, k: nat): nat
    decreases |ds| - i
  {
    if i >= |ds| then k else FirstKind(Yield(ds[i]), Ahead(ds, i + 1, k))
  }

  ghost predicate PartFits(s: nat, p: nat, ds: seq<Tree>, j: nat, k: nat)
    requires j < |ds|
  {
    match ds[j]
    case Leaf(_) => !(j == 1 && IsContinued(p) && Tightness(Continuation(p)) <= HoldAt(s))
    case Branch(_, _) => Fits(ds[j], At(s, p, j), Ahead(ds, j + 1, k))
  }

  ghost predicate PartsFit(s: nat, p: nat, ds: seq<Tree>, i: nat, k: nat)
    requires i <= |ds|
  {
    forall j | 0 <= j < i :: PartFits(s, p, ds, j, k)
  }

  // ----- How phrases begin -----

  predicate IsStatementPart(x: nat) {
    7 <= x <= 10 || 18 <= x <= 20
  }

  predicate BeginsRight(x: nat, ks: seq<Token>) {
    && (BeginsOperand(x) || IsStatementPart(x) ==> ks != [])
    && (ks != [] ==>
        (BeginsOperand(x) ==> OpensOperand(ks[0].kind)) &&
        (IsStatementPart(x) || x == STATEMENTS ==> StartsStatement(ks[0].kind)))
  }

  lemma FirstOfStatements(p: nat)
    requires 1 < p <= 26
    ensures var Production(x, rhs) := ProductionAt(p);
            && IsPhrase(x) && (IsStatementPart(x) ==> rhs != [])
            && (rhs != [] && (IsStatementPart(x) || x == STATEMENTS) ==>
                if IsPhrase(rhs[0]) then IsStatementPart(rhs[0]) || BeginsOperand(rhs[0]) else StartsStatement(rhs[0]))
            && !BeginsOperand(x)
  {
    hide ExpressionProduction, ListProduction;
  }

  lemma FirstOfOperands(p: nat)
    requires 26 < p < 82
    ensures var Production(x, rhs) := ProductionAt(p);
            && IsPhrase(x) && (BeginsOperand(x) ==> rhs != [])
            && (rhs != [] && BeginsOperand(x) ==>
                if IsPhrase(rhs[0]) then BeginsOperand(rhs[0]) else OpensOperand(rhs[0]))
            && !IsStatementPart(x) && x != STATEMENTS
  {
    hide StatementProduction;
  }

  lemma {:induction false} FirstOfAll(ds: seq<Tree>)
    requires ds != [] && Yield(ds[0]) != []
    ensures YieldAll(ds) != [] && YieldAll(ds)[0] == Yield(ds[0])[0]
  {
    hide Yield;
    if |ds| > 1 { FirstOfAll(ds[..|ds| - 1]); } else { assert ds[..0] == [] && YieldAll(ds[..0]) == []; }
  }

  /** The first token of a phrase. */
  lemma {:induction false} Starts(d: Tree)
    requires IsDerivation(d) && d.Branch?
    ensures BeginsRight(Symbol(d), Yield(d)) && IsPhrase(Symbol(d))
  {
    hide ProductionAt, IsPhrase, OpensOperand, FirstOfStatement;
    var Branch(p, ds) := d;
    if p <= 26 { FirstOfStatements(p); } else { FirstOfOperands(p); }
    if ds != [] {
      if ds[0].Branch? { Starts(ds[0]); }
      if Yield(ds[0]) != [] { FirstOfAll(ds); }
    }
  }

  lemma ListIsFollowed(s: nat, k: nat)
    requires Admits(s, ProductionAt(4).lhs, k)
    ensures FollowsStatement(k) && ProductionAt(4).rhs == [STATEMENT, STATEMENTS]
  {
    hide ExpressionProduction, ListProduction;
  }

  lemma AheadMayStand(s: nat, p: nat, ds: seq<Tree>, j: nat, k: nat)
    requires IsDerivation(Branch(p, ds)) && Admits(s, ProductionAt(p).lhs, k) && j < |ds|
    requires IsPhrase(ProductionAt(p).rhs[j])
    ensures MayStandBehind(p, j, k, Ahead(ds, j + 1, k))
  {
    hide ProductionAt, IsPhrase, OpensOperand, FirstOfStatement, Admits, Yield, Ahead, IsDerivation, Symbol;
    PartIs(p, ds, j);
    NothingBehind(ds, k);
    if j + 1 < |ds| {
      NextIsAhead(ds, j + 1, k);
      PartIs(p, ds, j + 1);
      var d := ds[j + 1];
      if d.Branch? {
        Starts(d);
        if p == 4 { ListIsFollowed(s, k); }
      }
    }
  }

  lemma IsInstance(p: nat, ds: seq<Tree>)
    requires IsDerivation(Branch(p, ds))
    ensures 1 < p < 82 && |ds| == |ProductionAt(p).rhs|
  {
  }

  lemma PartIs(p: nat, ds: seq<Tree>, i: nat)
    requires IsDerivation(Branch(p, ds)) && i < |ds|
    ensures 1 < p < 82 && |ds| == |ProductionAt(p).rhs|
    ensures IsDerivation(ds[i]) && Symbol(ds[i]) == ProductionAt(p).rhs[i]
    ensures ds[i].Leaf? <==> !IsPhrase(ProductionAt(p).rhs[i])
  {
    hide ProductionAt, IsPhrase;
    assert IsDerivation(ds[i]);
    if ds[i].Branch? { Starts(ds[i]); }
  }

  lemma NextIsAhead(ds: seq<Tree>, i: nat, k: nat)
    requires i < |ds|
    ensures ds[i].Leaf? ==> Ahead(ds, i, k) == Symbol(ds[i])
    ensures Yield(ds[i]) != [] ==> Ahead(ds, i, k) == Yield(ds[i])[0].kind
    ensures Yield(ds[i]) == [] ==> Ahead(ds, i, k) == Ahead(ds, i + 1, k)
  {
  }

  lemma NothingBehind(ds: seq<Tree>, k: nat)
    ensures Ahead(ds, |ds|, k) == k
  {
  }

  // ----- Fitting, part by part -----

  /** Nothing outside bears on part `j`. */
  ghost predicate IsFree(s: nat, p: nat, j: nat, k': nat)
    requires j < |ProductionAt(p).rhs|
  {
    var u, x := At(s, p, j), ProductionAt(p).rhs[j];
    && (x == EXPRESSION ==> HoldAt(u) == -1 && Pull(k') == -1 && !TakesStatement(u))
    && (x == ASSIGNMENT ==> !TakesStatement(u)) && (x == PAIRS ==> u != 11)
    && (x == IDENTIFIERS || x == NONEMPTY_IDENTIFIERS ==> u != 25)
  }

  /** Productions all of whose parts are free. */
  predicate IsPlain(p: nat) {
    2 <= p <= 11 || 14 <= p <= 18 || 20 <= p <= 26 || 47 <= p <= 51 || p == 53 || 55 <= p <= 72 ||
    74 <= p <= 76 || 78 <= p <= 79 || p == 81
  }

  lemma PlainStatement(s: nat, p: nat, j: nat, k: nat, k': nat)
    requires IsPart(s, p, j, k, k') && IsPlain(p) && p <= 18
    ensures IsFree(s, p, j, k')
  {
    hide ExpressionProduction, ListProduction, AtExpression, AtList;
  }

  lemma PlainOtherStatement(s: nat, p: nat, j: nat, k: nat, k': nat)
    requires IsPart(s, p, j, k, k') && 20 <= p <= 26
    ensures IsFree(s, p, j, k')
  {
    CompoundParts(s, p, j);
    if 25 <= p && j == 0 { AssignmentInLoop(s, p, k); }
    hide ProductionAt, At, Admits;
  }

  lemma AssignmentInLoop(s: nat, p: nat, k: nat)
    requires 25 <= p <= 26 && Admits(s, ProductionAt(p).lhs, k)
    ensures At(s, p, 0) == s && !TakesStatement(s)
  {
    hide ExpressionProduction, ListProduction;
  }

  /** The expressions in compound statements stand between parentheses and semicolons. */
  lemma CompoundParts(s: nat, p: nat, j: nat)
    requires 20 <= p <= 26 && j < |ProductionAt(p).rhs|
    ensures var rhs := ProductionAt(p).rhs;
            && rhs[j] != PAIRS && rhs[j] != IDENTIFIERS && rhs[j] != NONEMPTY_IDENTIFIERS
            && (rhs[j] == ASSIGNMENT ==> 25 <= p && j == 0)
            && (rhs[j] == EXPRESSION ==>
                j > 0 && j + 1 < |rhs| && (rhs[j + 1] == CLOSE || rhs[j + 1] == SEMICOLON) &&
                (At(s, p, j) == 73 || At(s, p, j) == 74 || At(s, p, j) == 118))
  {
    hide ExpressionProduction, ListProduction, AtExpression, AtList;
  }

  lemma PlainExpression(s: nat, p: nat, j: nat, k: nat, k': nat)
    requires IsPart(s, p, j, k, k') && (47 <= p <= 51 || p == 53)
    ensures IsFree(s, p, j, k')
  {
    hide StatementProduction, ListProduction, AtStatement, AtList;
  }

  lemma PlainList(s: nat, p: nat, j: nat, k: nat, k': nat)
    requires IsPart(s, p, j, k, k') && IsPlain(p) && 55 <= p
    ensures IsFree(s, p, j, k')
  {
    hide StatementProduction, ExpressionProduction, AtStatement, AtExpression;
  }

  lemma {:induction false} OpensToAll(d: Tree)
    ensures Opens(d, -1)
  {
    if d.Branch? && d.children != [] { OpensToAll(d.children[0]); }
  }

  lemma {:induction false} ClosesToAll(d: Tree)
    ensures Closes(d, -1)
  {
    if d.Branch? && d.children != [] { ClosesToAll(d.children[|d.children| - 1]); }
  }

  lemma EdgesAreExpressions(p: nat)
    requires 1 < p < 82
    ensures IsContinued(p) || IsOpen(p) || p == 52 ==> ProductionAt(p).lhs == EXPRESSION
    ensures p == 19 ==> ProductionAt(p).lhs == ASSIGNMENT
    ensures p == 73 ==> ProductionAt(p).lhs == PAIRS
    ensures p == 77 ==> ProductionAt(p).lhs == IDENTIFIERS
    ensures p == 80 ==> ProductionAt(p).lhs == NONEMPTY_IDENTIFIERS
  {
    if p <= 26 { hide ExpressionProduction, ListProduction; }
  }

  /** What the edges of a phrase can be. */
  lemma Edges(d: Tree, h: int, t: int)
    requires IsDerivation(d) && d.Branch?
    ensures Symbol(d) != EXPRESSION || h == -1 ==> Opens(d, h)
    ensures Symbol(d) != EXPRESSION || t == -1 ==> Closes(d, t)
    ensures BeginsWithEmptyObject(d) ==> Symbol(d) == EXPRESSION || Symbol(d) == ASSIGNMENT
    ensures IsNoPairs(d) ==> Symbol(d) == PAIRS
    ensures IsOneName(d) ==> Symbol(d) == IDENTIFIERS || Symbol(d) == NONEMPTY_IDENTIFIERS
  {
    hide ProductionAt;
    OpensToAll(d);
    ClosesToAll(d);
    EdgesAreExpressions(d.production);
  }

  lemma FreePartFits(s: nat, p: nat, ds: seq<Tree>, j: nat, k: nat)
    requires IsDerivation(Branch(p, ds)) && j < |ds| && ds[j].Branch? && |ds| == |ProductionAt(p).rhs|
    requires IsFree(s, p, j, Ahead(ds, j + 1, k))
    ensures PartFits(s, p, ds, j, k) <==> Grouped(ds[j])
  {
    hide At, ProductionAt, HoldAt, Pull, Ahead, Grouped, Opens, Closes, BeginsWithEmptyObject, IsNoPairs, IsOneName;
    hide TakesStatement, IsDerivation, Symbol;
    PartIs(p, ds, j);
    Edges(ds[j], HoldAt(At(s, p, j)), Pull(Ahead(ds, j + 1, k)));
  }

  ghost predicate AllGrouped(ds: seq<Tree>) {
    forall i | 0 <= i < |ds| :: Grouped(ds[i])
  }

  lemma LeafIsGrouped(d: Tree)
    requires d.Leaf?
    ensures Grouped(d)
  {
  }

  lemma PlainIsFree(s: nat, p: nat, j: nat, k: nat, k': nat)
    requires IsPart(s, p, j, k, k') && IsPlain(p)
    ensures IsFree(s, p, j, k')
  {
    hide IsPart, IsFree;
    if p <= 18 { PlainStatement(s, p, j, k, k'); }
    else if p <= 26 { PlainOtherStatement(s, p, j, k, k'); }
    else if p <= 53 { PlainExpression(s, p, j, k, k'); }
    else { PlainList(s, p, j, k, k'); }
  }

  lemma PlainPartFits(s: nat, p: nat, ds: seq<Tree>, j: nat, k: nat)
    requires IsDerivation(Branch(p, ds)) && Admits(s, ProductionAt(p).lhs, k) && IsPlain(p) && j < |ds|
    ensures PartFits(s, p, ds, j, k) <==> Grouped(ds[j])
  {
    hide At, ProductionAt, HoldAt, Ahead, Grouped, Fits, Admits, IsFree, IsDerivation;
    PartIs(p, ds, j);
    if ds[j].Branch? {
      AheadMayStand(s, p, ds, j, k);
      PlainIsFree(s, p, j, k, Ahead(ds, j + 1, k));
      FreePartFits(s, p, ds, j, k);
    } else {
      LeafIsGrouped(ds[j]);
    }
  }

  lemma PlainFits(s: nat, p: nat, ds: seq<Tree>, k: nat)
    requires IsDerivation(Branch(p, ds)) && Admits(s, ProductionAt(p).lhs, k) && IsPlain(p)
    ensures Fits(Branch(p, ds), s, k) <==> PartsFit(s, p, ds, |ds|, k) && EndsWell(s, p, k)
  {
    hide PartFits, Admits, IsDerivation, ProductionAt, HoldAt, TakesStatement;
    forall j | 0 <= j < |ds| ensures PartFits(s, p, ds, j, k) <==> Grouped(ds[j]) {
      PlainPartFits(s, p, ds, j, k);
    }
    PlainBranch(p, ds, HoldAt(s), Pull(k));
    hide Grouped, Opens, Closes, BeginsWithEmptyObject, IsOneName;
  }

  lemma PlainBranch(p: nat, ds: seq<Tree>, h: int, t: int)
    requires IsPlain(p)
    ensures var d := Branch(p, ds);
            && (Grouped(d) <==> AllGrouped(ds)) && Opens(d, h) && Closes(d, t)
            && !BeginsWithEmptyObject(d) && !IsNoPairs(d) && !IsOneName(d) && !IsOpen(p)
  {
  }

  // ----- Productions with parts that are not free -----

  /** An expression or assignment begun in state `s` before a token that goes on with no expression. */
  lemma LeftFits(s: nat, p: nat, ds: seq<Tree>, k: nat)
    requires IsDerivation(Branch(p, ds)) && Admits(s, ProductionAt(p).lhs, k) && (p == 12 || p == 13 || p == 19)
    ensures |ds| > 1 && ds[1].Leaf?
    ensures PartFits(s, p, ds, 0, k) <==> Grouped(ds[0]) && (TakesStatement(s) ==> !BeginsWithEmptyObject(ds[0]))
  {
    hide StatementProduction, ExpressionProduction, ListProduction;
    LeftParts();
    LeftIsNotHeld(s, p, k);
    hide ProductionAt, HoldAt, Ahead, Grouped, Opens, Closes, BeginsWithEmptyObject, TakesStatement, Admits, IsPhrase,
         IsDerivation, Symbol, IsNoPairs, IsOneName, Pull;
    PartIs(p, ds, 0);
    PartIs(p, ds, 1);
    NextIsAhead(ds, 1, k);
    LeafHasSymbol(ds[1]);
    Edges(ds[0], -1, -1);
  }

  lemma LeafHasSymbol(d: Tree)
    requires d.Leaf?
    ensures Symbol(d) == d.token.kind
  {
  }

  lemma LeftParts()
    ensures ProductionAt(12).rhs == [ASSIGNMENT, SEMICOLON] && ProductionAt(13).rhs == [EXPRESSION, SEMICOLON]
    ensures ProductionAt(19).rhs == [EXPRESSION, EQUALS, EXPRESSION]
    ensures IsPhrase(ASSIGNMENT) && IsPhrase(EXPRESSION) && !IsPhrase(SEMICOLON) && !IsPhrase(EQUALS)
    ensures Pull(SEMICOLON) == -1 && Pull(EQUALS) == -1
  {
    hide ExpressionProduction, ListProduction;
  }

  lemma LeftIsNotHeld(s: nat, p: nat, k: nat)
    requires Admits(s, ProductionAt(p).lhs, k) && (p == 12 || p == 13 || p == 19)
    ensures HoldAt(s) == -1 && s != 25 && (p != 19 ==> TakesStatement(s))
  {
    hide ExpressionProduction, ListProduction;
  }

  lemma StatementBranch(p: nat, ds: seq<Tree>, h: int, t: int)
    requires (p == 12 || p == 13) && |ds| == 2 && ds[1].Leaf?
    ensures var d := Branch(p, ds);
            && (Grouped(d) <==> Grouped(ds[0]) && !BeginsWithEmptyObject(ds[0])) && Opens(d, h) && Closes(d, t)
            && !BeginsWithEmptyObject(d) && !IsNoPairs(d) && !IsOneName(d)
  {
  }

  lemma LeafPartFits(s: nat, p: nat, ds: seq<Tree>, j: nat, k: nat)
    requires j < |ds| && ds[j].Leaf? && !(j == 1 && IsContinued(p))
    ensures PartFits(s, p, ds, j, k)
  {
  }

  lemma StatementFits(s: nat, p: nat, ds: seq<Tree>, k: nat)
    requires IsDerivation(Branch(p, ds)) && Admits(s, ProductionAt(p).lhs, k) && (p == 12 || p == 13)
    ensures Fits(Branch(p, ds), s, k) <==> PartsFit(s, p, ds, |ds|, k) && EndsWell(s, p, k)
  {
    LeftParts();
    LeftIsNotHeld(s, p, k);
    IsInstance(p, ds);
    hide PartFits, Admits, IsDerivation, ProductionAt, HoldAt, TakesStatement, Grouped, Opens, Closes,
         BeginsWithEmptyObject, IsOneName, Pull;
    LeftFits(s, p, ds, k);
    LeafPartFits(s, p, ds, 1, k);
    StatementBranch(p, ds, HoldAt(s), Pull(k));
  }

  lemma AssignmentBranch(ds: seq<Tree>, h: int, t: int)
    requires |ds| == 3 && ds[1].Leaf?
    ensures var d := Branch(19, ds);
            && (Grouped(d) <==> Grouped(ds[0]) && Grouped(ds[2])) && Opens(d, h) && Closes(d, t)
            && BeginsWithEmptyObject(d) == BeginsWithEmptyObject(ds[0]) && !IsNoPairs(d) && !IsOneName(d)
  {
  }

  lemma AssignedIsFree(s: nat, k: nat)
    requires Admits(s, ProductionAt(19).lhs, k)
    ensures |ProductionAt(19).rhs| == 3 && IsFree(s, 19, 2, k)
  {
    hide ExpressionProduction, ListProduction;
  }

  lemma AssignmentFits(s: nat, ds: seq<Tree>, k: nat)
    requires IsDerivation(Branch(19, ds)) && Admits(s, ProductionAt(19).lhs, k)
    ensures Fits(Branch(19, ds), s, k) <==> PartsFit(s, 19, ds, |ds|, k) && EndsWell(s, 19, k)
  {
    LeftParts();
    IsInstance(19, ds);
    hide PartFits, Admits, IsDerivation, ProductionAt, HoldAt, TakesStatement, Grouped, Opens, Closes, Ahead,
         BeginsWithEmptyObject, IsOneName, Pull, IsFree, IsPhrase;
    LeftFits(s, 19, ds, k);
    LeafPartFits(s, 19, ds, 1, k);
    AssignedIsFree(s, k);
    PartIs(19, ds, 2);
    NothingBehind(ds, k);
    FreePartFits(s, 19, ds, 2, k);
    AssignmentBranch(ds, HoldAt(s), Pull(k));
  }

  // ----- Objects, arrows and lists of names -----

  lemma ObjectParts(s: nat)
    ensures ProductionAt(52).rhs == [OPEN_BRACE, PAIRS, CLOSE_BRACE] && IsPhrase(PAIRS)
    ensures !IsPhrase(OPEN_BRACE) && !IsPhrase(CLOSE_BRACE)
    ensures At(s, 52, 1) == if TakesStatement(s) then 11 else 70
  {
    hide StatementProduction, ListProduction;
  }

  lemma ObjectBranch(ds: seq<Tree>, h: int, t: int)
    requires |ds| == 3 && ds[0].Leaf? && ds[2].Leaf?
    ensures var d := Branch(52, ds);
            && (Grouped(d) <==> Grouped(ds[1])) && Opens(d, h) && Closes(d, t)
            && BeginsWithEmptyObject(d) == IsNoPairs(ds[1]) && !IsNoPairs(d) && !IsOneName(d)
  {
  }

  lemma PairsFit(s: nat, ds: seq<Tree>, k: nat)
    requires IsDerivation(Branch(52, ds)) && Admits(s, ProductionAt(52).lhs, k)
    ensures |ds| == 3 && ds[0].Leaf? && ds[2].Leaf?
    ensures PartFits(s, 52, ds, 1, k) <==> Grouped(ds[1]) && (TakesStatement(s) ==> !IsNoPairs(ds[1]))
  {
    ObjectParts(s);
    IsInstance(52, ds);
    hide Admits, IsDerivation, ProductionAt, HoldAt, TakesStatement, Grouped, Opens, Closes, Ahead, At, Symbol,
         BeginsWithEmptyObject, IsOneName, Pull, IsPhrase, IsNoPairs;
    PartIs(52, ds, 0);
    PartIs(52, ds, 1);
    PartIs(52, ds, 2);
    Edges(ds[1], HoldAt(At(s, 52, 1)), Pull(Ahead(ds, 2, k)));
  }

  lemma ObjectFits(s: nat, ds: seq<Tree>, k: nat)
    requires IsDerivation(Branch(52, ds)) && Admits(s, ProductionAt(52).lhs, k)
    ensures Fits(Branch(52, ds), s, k) <==> PartsFit(s, 52, ds, |ds|, k) && EndsWell(s, 52, k)
  {
    hide Admits, IsDerivation, ProductionAt, HoldAt, TakesStatement, Grouped, Opens, Closes, PartFits,
         BeginsWithEmptyObject, IsOneName, Pull, IsNoPairs;
    PairsFit(s, ds, k);
    LeafPartFits(s, 52, ds, 0, k);
    LeafPartFits(s, 52, ds, 2, k);
    ObjectBranch(ds, HoldAt(s), Pull(k));
  }

  lemma ArrowParts(s: nat)
    ensures ProductionAt(43).rhs == [OPEN, IDENTIFIERS, CLOSE, ARROW, EXPRESSION] && IsPhrase(IDENTIFIERS)
    ensures !IsPhrase(OPEN) && !IsPhrase(CLOSE) && !IsPhrase(ARROW) && IsPhrase(EXPRESSION)
    ensures At(s, 43, 1) == 25 && At(s, 43, 4) == 142 && HoldAt(142) == 0
  {
    hide StatementProduction, ListProduction;
  }

  lemma ArrowBranch(ds: seq<Tree>, h: int, t: int)
    requires |ds| == 5 && ds[0].Leaf? && ds[2].Leaf? && ds[3].Leaf?
    ensures var d := Branch(43, ds);
            && (Grouped(d) <==> Grouped(ds[1]) && Grouped(ds[4]) && Opens(ds[4], 0) && !IsOneName(ds[1]))
            && Opens(d, h) && (Closes(d, t) <==> t <= 0 && Closes(ds[4], t))
            && !BeginsWithEmptyObject(d) && !IsNoPairs(d) && !IsOneName(d)
  {
  }

  lemma ArrowPartsFit(s: nat, ds: seq<Tree>, k: nat)
    requires IsDerivation(Branch(43, ds)) && Admits(s, ProductionAt(43).lhs, k)
    ensures |ds| == 5 && ds[0].Leaf? && ds[2].Leaf? && ds[3].Leaf?
    ensures PartFits(s, 43, ds, 1, k) <==> Grouped(ds[1]) && !IsOneName(ds[1])
    ensures PartFits(s, 43, ds, 4, k) <==> Grouped(ds[4]) && Opens(ds[4], 0) && Closes(ds[4], Pull(k))
  {
    ArrowParts(s);
    IsInstance(43, ds);
    assert !TakesStatement(25) && !TakesStatement(142);
    hide Admits, IsDerivation, ProductionAt, HoldAt, Grouped, Opens, Closes, Ahead, At, TakesStatement, Symbol,
         BeginsWithEmptyObject, IsOneName, Pull, IsPhrase, IsNoPairs;
    PartIs(43, ds, 0);
    PartIs(43, ds, 1);
    PartIs(43, ds, 2);
    PartIs(43, ds, 3);
    PartIs(43, ds, 4);
    Edges(ds[1], HoldAt(25), Pull(Ahead(ds, 2, k)));
    NothingBehind(ds, k);
  }

  lemma ArrowFits(s: nat, ds: seq<Tree>, k: nat)
    requires IsDerivation(Branch(43, ds)) && Admits(s, ProductionAt(43).lhs, k)
    ensures Fits(Branch(43, ds), s, k) <==> PartsFit(s, 43, ds, |ds|, k) && EndsWell(s, 43, k)
  {
    hide Admits, IsDerivation, ProductionAt, HoldAt, TakesStatement, Grouped, Opens, Closes, PartFits,
         BeginsWithEmptyObject, IsOneName, Pull, IsNoPairs;
    ArrowPartsFit(s, ds, k);
    LeafPartFits(s, 43, ds, 0, k);
    LeafPartFits(s, 43, ds, 2, k);
    LeafPartFits(s, 43, ds, 3, k);
    ArrowBranch(ds, HoldAt(s), Pull(k));
  }

  // Lists of names.

  lemma NamesParts()
    ensures ProductionAt(77).rhs == [NONEMPTY_IDENTIFIERS] && ProductionAt(80).rhs == [IDENTIFIER]
    ensures IsPhrase(NONEMPTY_IDENTIFIERS) && IsPhrase(IDENTIFIER)
  {
    hide StatementProduction, ExpressionProduction;
  }

  lemma NamesBranch(p: nat, ds: seq<Tree>, h: int, t: int)
    requires (p == 77 || p == 80) && |ds| == 1
    ensures var d := Branch(p, ds);
            && (Grouped(d) <==> Grouped(ds[0])) && Opens(d, h) && Closes(d, t)
            && !BeginsWithEmptyObject(d) && !IsNoPairs(d) && (IsOneName(d) <==> p == 80 || IsOneName(ds[0]))
  {
  }

  lemma NamesPartFits(s: nat, p: nat, ds: seq<Tree>, k: nat)
    requires IsDerivation(Branch(p, ds)) && Admits(s, ProductionAt(p).lhs, k) && (p == 77 || p == 80)
    ensures |ds| == 1
    ensures PartFits(s, p, ds, 0, k) <==> Grouped(ds[0]) && (p == 77 && s == 25 ==> !IsOneName(ds[0]))
  {
    NamesParts();
    IsInstance(p, ds);
    hide Admits, IsDerivation, ProductionAt, HoldAt, Grouped, Opens, Closes, Ahead, TakesStatement, Symbol,
         BeginsWithEmptyObject, IsOneName, Pull, IsPhrase, IsNoPairs;
    PartIs(p, ds, 0);
    Edges(ds[0], HoldAt(s), Pull(Ahead(ds, 1, k)));
  }

  lemma NamesFit(s: nat, p: nat, ds: seq<Tree>, k: nat)
    requires IsDerivation(Branch(p, ds)) && Admits(s, ProductionAt(p).lhs, k) && (p == 77 || p == 80)
    ensures Fits(Branch(p, ds), s, k) <==> PartsFit(s, p, ds, |ds|, k) && EndsWell(s, p, k)
  {
    hide Admits, IsDerivation, ProductionAt, HoldAt, TakesStatement, Grouped, Opens, Closes, PartFits,
         BeginsWithEmptyObject, IsOneName, Pull, IsNoPairs;
    NamesPartFits(s, p, ds, k);
    NamesBranch(p, ds, HoldAt(s), Pull(k));
  }

  lemma NoPairsFit(s: nat, ds: seq<Tree>, k: nat)
    requires IsDerivation(Branch(73, ds)) && Admits(s, ProductionAt(73).lhs, k)
    ensures Fits(Branch(73, ds), s, k) <==> PartsFit(s, 73, ds, |ds|, k) && EndsWell(s, 73, k)
  {
    hide Admits, HoldAt, Pull, TakesStatement, IsDerivation;
    IsInstance(73, ds);
    EmptyRightSides();
  }

  // Operators.

  predicate HasEdge(p: nat) {
    27 <= p <= 42 || 44 <= p <= 46 || p == 54
  }

  /** The parts of an operation that are not at its edges, where something outside bears on them. */
  ghost predicate IsInside(p: nat, j: nat)
    requires j < |ProductionAt(p).rhs|
  {
    !(j == 0 && IsContinued(p)) && !(j == |ProductionAt(p).rhs| - 1 && IsOpen(p))
  }

  lemma InsideIsFree(s: nat, p: nat, j: nat, k: nat, k': nat)
    requires IsPart(s, p, j, k, k') && HasEdge(p) && IsInside(p, j)
    ensures IsFree(s, p, j, k')
  {
    hide StatementProduction, ListProduction, AtStatement, AtList;
  }

  lemma LeftEdge(s: nat, p: nat)
    requires IsContinued(p)
    ensures |ProductionAt(p).rhs| >= 3 && ProductionAt(p).rhs[0] == EXPRESSION
    ensures ProductionAt(p).rhs[1] == Continuation(p) && !IsPhrase(Continuation(p))
  {
    hide StatementProduction, ListProduction;
  }

  lemma RightEdge(s: nat, p: nat, k: nat)
    requires IsOpen(p) && HasEdge(p) && Admits(s, ProductionAt(p).lhs, k)
    ensures |ProductionAt(p).rhs| >= 2 && ProductionAt(p).rhs[|ProductionAt(p).rhs| - 1] == EXPRESSION
    ensures var u := At(s, p, |ProductionAt(p).rhs| - 1); HoldAt(u) == HoldOf(p) && !TakesStatement(u) && u != 25
  {
    hide StatementProduction, ListProduction, AtStatement, AtList;
  }

  ghost predicate LeftEdgeFits(s: nat, p: nat, d: Tree)
    requires IsContinued(p)
  {
    && Grouped(d) && Opens(d, HoldAt(s)) && Closes(d, Tightness(Continuation(p)))
    && (TakesStatement(s) ==> !BeginsWithEmptyObject(d))
  }

  ghost predicate RightEdgeFits(p: nat, d: Tree, k: nat)
    requires IsOpen(p)
  {
    Grouped(d) && Opens(d, HoldOf(p)) && Closes(d, Pull(k))
  }

  /** What has to hold of part `j` of an operation, and of the token that it goes on with. */
  ghost predicate OperandFits(s: nat, p: nat, ds: seq<Tree>, j: nat, k: nat)
    requires j < |ds|
  {
    && (j == 0 && IsContinued(p) ==> LeftEdgeFits(s, p, ds[j]))
    && (j == 1 && IsContinued(p) && ds[j].Leaf? ==> HoldAt(s) < Tightness(Continuation(p)))
    && (j == |ds| - 1 && IsOpen(p) ==> RightEdgeFits(p, ds[j], k))
    && Grouped(ds[j])
  }

  lemma LeftEdgeIs(s: nat, p: nat, ds: seq<Tree>, k: nat)
    requires IsDerivation(Branch(p, ds)) && Admits(s, ProductionAt(p).lhs, k) && HasEdge(p) && IsContinued(p)
    ensures |ds| > 2 && ds[1].Leaf? && (PartFits(s, p, ds, 0, k) <==> LeftEdgeFits(s, p, ds[0]))
  {
    LeftEdge(s, p);
    IsInstance(p, ds);
    ExpressionIsPhrase();
    hide Admits, IsDerivation, ProductionAt, HoldAt, Grouped, Opens, Closes, Ahead, TakesStatement, Symbol,
         BeginsWithEmptyObject, IsOneName, Tightness, Continues, IsPhrase, IsNoPairs, Continuation, IsContinued;
    PartIs(p, ds, 0);
    PartIs(p, ds, 1);
    NextIsAhead(ds, 1, k);
    Edges(ds[0], -1, -1);
  }

  lemma ExpressionIsPhrase()
    ensures IsPhrase(EXPRESSION)
  {
  }

  lemma RightEdgeIs(s: nat, p: nat, ds: seq<Tree>, k: nat)
    requires IsDerivation(Branch(p, ds)) && Admits(s, ProductionAt(p).lhs, k) && HasEdge(p) && IsOpen(p)
    ensures |ds| > 1 && (PartFits(s, p, ds, |ds| - 1, k) <==> RightEdgeFits(p, ds[|ds| - 1], k))
  {
    RightEdge(s, p, k);
    IsInstance(p, ds);
    ExpressionIsPhrase();
    assert TakesStatement(11);
    hide Admits, IsDerivation, ProductionAt, HoldAt, Grouped, Opens, Closes, Ahead, TakesStatement, Symbol, At,
         BeginsWithEmptyObject, IsOneName, Pull, IsPhrase, IsNoPairs, IsOpen, HoldOf;
    PartIs(p, ds, |ds| - 1);
    NothingBehind(ds, k);
    Edges(ds[|ds| - 1], -1, -1);
  }

  lemma OperandIs(s: nat, p: nat, ds: seq<Tree>, j: nat, k: nat)
    requires IsDerivation(Branch(p, ds)) && Admits(s, ProductionAt(p).lhs, k) && HasEdge(p) && j < |ds|
    ensures PartFits(s, p, ds, j, k) <==> OperandFits(s, p, ds, j, k)
  {
    hide Admits, IsDerivation, ProductionAt, HoldAt, Grouped, Opens, Closes, Ahead, TakesStatement, Symbol, At,
         BeginsWithEmptyObject, IsOneName, Pull, IsPhrase, IsNoPairs, IsOpen, HoldOf, IsContinued, HasEdge, IsFree,
         Tightness, Fits;
    IsInstance(p, ds);
    PartIs(p, ds, j);
    if IsContinued(p) { LeftEdgeIs(s, p, ds, k); }
    if IsOpen(p) { RightEdgeIs(s, p, ds, k); }
    if ds[j].Leaf? {
      LeafIsGrouped(ds[j]);
    } else if IsInside(p, j) {
      AheadMayStand(s, p, ds, j, k);
      InsideIsFree(s, p, j, k, Ahead(ds, j + 1, k));
      FreePartFits(s, p, ds, j, k);
    }
  }

  lemma OperationBranch(p: nat, ds: seq<Tree>, h: int, t: int)
    requires HasEdge(p) && ds != []
    ensures var d := Branch(p, ds);
            var last := ds[|ds| - 1];
            && (Grouped(d) <==> AllGrouped(ds) && (IsContinued(p) ==> Closes(ds[0], Tightness(Continuation(p)))) &&
                                (IsOpen(p) ==> Opens(last, HoldOf(p))))
            && (Opens(d, h) <==> (IsContinued(p) ==> h < Tightness(Continuation(p)) && Opens(ds[0], h)))
            && (Closes(d, t) <==> (IsOpen(p) ==> t <= HoldOf(p) && Closes(last, t)))
            && (BeginsWithEmptyObject(d) <==> IsContinued(p) && BeginsWithEmptyObject(ds[0]))
            && !IsNoPairs(d) && !IsOneName(d)
  {
  }

  lemma OperationSize(p: nat)
    requires HasEdge(p)
    ensures |ProductionAt(p).rhs| > 1 && (IsContinued(p) ==> |ProductionAt(p).rhs| > 2)
  {
    hide StatementProduction, ListProduction;
  }

  lemma SecondIsLeaf(p: nat, ds: seq<Tree>)
    requires IsDerivation(Branch(p, ds)) && HasEdge(p) && IsContinued(p)
    ensures |ds| > 2 && ds[1].Leaf?
  {
    LeftEdge(0, p);
    IsInstance(p, ds);
    hide ProductionAt, IsDerivation, IsPhrase;
    PartIs(p, ds, 1);
  }

  lemma OperationFits(s: nat, p: nat, ds: seq<Tree>, k: nat)
    requires IsDerivation(Branch(p, ds)) && Admits(s, ProductionAt(p).lhs, k) && HasEdge(p)
    ensures Fits(Branch(p, ds), s, k) <==> PartsFit(s, p, ds, |ds|, k) && EndsWell(s, p, k)
  {
    IsInstance(p, ds);
    OperationSize(p);
    if IsContinued(p) { SecondIsLeaf(p, ds); }
    hide Admits, IsDerivation, ProductionAt, HoldAt, Grouped, Opens, Closes, TakesStatement, PartFits,
         BeginsWithEmptyObject, IsOneName, Pull, IsNoPairs, IsOpen, HoldOf, IsContinued, Tightness;
    forall j | 0 <= j < |ds| ensures PartFits(s, p, ds, j, k) <==> OperandFits(s, p, ds, j, k) {
      OperandIs(s, p, ds, j, k);
    }
    OperationBranch(p, ds, HoldAt(s), Pull(k));
    OperandsFit(s, p, ds, k);
    hide HasEdge, OperandFits;
  }

  /** All the operands fit exactly when each is grouped and the edges fit. */
  lemma OperandsFit(s: nat, p: nat, ds: seq<Tree>, k: nat)
    requires ds != [] && (IsContinued(p) ==> |ds| > 2 && ds[1].Leaf?)
    ensures (forall j | 0 <= j < |ds| :: OperandFits(s, p, ds, j, k)) <==>
            && AllGrouped(ds)
            && (IsContinued(p) ==> LeftEdgeFits(s, p, ds[0]) && HoldAt(s) < Tightness(Continuation(p)))
            && (IsOpen(p) ==> RightEdgeFits(p, ds[|ds| - 1], k))
  {
    hide HoldAt, Grouped, LeftEdgeFits, RightEdgeFits, IsOpen, IsContinued, Tightness;
    if forall j | 0 <= j < |ds| :: OperandFits(s, p, ds, j, k) {
      assert OperandFits(s, p, ds, 0, k) && OperandFits(s, p, ds, |ds| - 1, k);
      if IsContinued(p) { assert OperandFits(s, p, ds, 1, k); }
      assert forall j | 0 <= j < |ds| :: OperandFits(s, p, ds, j, k) ==> Grouped(ds[j]);
    }
  }

  /** A derivation fits exactly when all its parts fit where they stand and it is reduced where it ends. */
  lemma FitsIff(s: nat, p: nat, ds: seq<Tree>, k: nat)
    requires IsDerivation(Branch(p, ds)) && Admits(s, ProductionAt(p).lhs, k)
    ensures Fits(Branch(p, ds), s, k) <==> PartsFit(s, p, ds, |ds|, k) && EndsWell(s, p, k)
  {
    IsInstance(p, ds);
    hide IsDerivation, Admits, ProductionAt, Fits, PartsFit, EndsWell;
    if p == 12 || p == 13 { StatementFits(s, p, ds, k); }
    else if p == 19 { AssignmentFits(s, ds, k); }
    else if p == 43 { ArrowFits(s, ds, k); }
    else if p == 52 { ObjectFits(s, ds, k); }
    else if p == 73 { NoPairsFit(s, ds, k); }
    else if p == 77 || p == 80 { NamesFit(s, p, ds, k); }
    else if HasEdge(p) { OperationFits(s, p, ds, k); }
    else { PlainFits(s, p, ds, k); }
  }
}
